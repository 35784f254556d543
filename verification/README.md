# Verified model of the gateway's abuse control

A Dafny model of the abuse-control engine of an API gateway: services and middlewares that share an expiring
Redis store. It proves what the small amount of state they keep stands for over whole runs.

* `redis.dfy`, `sorted_set.dfy`: the store. Keys carry a deadline in milliseconds and are readable strictly
  before it. Every key prefix is a map of its own; the two axes of `failed_auth:` share one.
* `rate_limiter.dfy`, `rate_limit_runs.dfy`, `rate_limit_windows.dfy`, `rate_limit_excess.dfy`,
  `rate_limit_bounds.dfy`: the sliding-window script, the service and middleware around it; refinement of a ledger that never forgets, window bounds for ordered
  and for overtaking calls, greedy optimality, erasure of rejections, Retry-After, and exactly when drift, stamp order
  and repeated stamps defeat the limit.
* `failures.dfy`, `login_protocol.dfy`, `login_history.dfy`, `abuse_detector.dfy`, `auth.dfy`: the failure counters as
  chains of failures, logins as an interleaved check-then-act protocol and what a run of them records, the detector
  and the login route.
* `deviation.dfy`, `timing.dfy`, `graduated.dfy`: exact arithmetic of the deviation of gaps, streaming top-k samples,
  the graduated decision and the soft blocks.
* `gateway.dfy`, `gateway_runs.dfy`, `gateway_events.dfy`, `gateway_shadow.dfy`, `shadow_log.dfy`, `middleware.dfy`: the
  two middlewares as a machine whose steps are the store operations between awaits, with theorems over every
  interleaving; what every answer rests on, in terms of the events of the run; the statistics loop; and the middlewares
  as code, proved to do what the machine does with a request that runs alone.
* `bloom.dfy`: the filters, their rebuild, and its interleavings with additions.

Each class method is proved against a function of the old store; the theorems are about those functions.

## How time and names are read

A stamp is what the gateway's clock gives; the clock is Redis's. The limiter takes both, so the skew between them is
part of its theorems: `Steady` says that stamps do not decrease and that the offset between the clocks grows by at
most 1000 ms between any two calls, and with a single clock that is just ordered time. A stamp is taken before the
script is awaited, so calls of one client can overtake each other: the window bounds are stated for stamps that go
back by at most `d` milliseconds, `Received` (calls in the order of the Redis clock) or `Reordered` (no such order,
less drift). Within one client's key a
member of the sorted set is determined by its stamp, so a set of stamps is the whole content of the key.
A login whose IP and username are one string increments its counter twice; the bound on the counter is therefore in
pending increments, and in logins where no IP is also the username. The bounds on recorded failures need no such
condition. `cap` stands for any bound on the thresholds of the axes a key is used on. The lockout theorems speak of
every sequence of logins that reach the route, so whatever the shadow flag lets through is covered.

## What turned out different from the documentation

* Requests of one client within one millisecond are one member, so from a limit of two on a burst is admitted whole;
  the design document promises the limit per rolling window without that exception. `RequestBoundIff` says exactly for
  which limits it holds on every run, `Accounting` counts what escapes, `RequestSafety` gives the bound otherwise.
* Overtaking by a single millisecond overfills no window, and by two it can: `OrderNeededIff` says exactly for which
  reordering and limit every whole window stays within the limit. `ExcessIff` says by how much a window is exceeded
  at most: with stamps that go back by at most `d`, by `d - n` where `n` is the largest number with 1 + ... + n <= d,
  and `ExcessAttained` builds a run that does so. `WindowSafety` says which shorter interval is safe. The remaining
  quota and single verdicts are more delicate: `LedgerOrderIff`.
* The key outlives its window by a second, and a second of drift is what it tolerates (`DriftIff`). The run at the
  boundary finds the key at its very deadline, where this model calls it expired; were it still readable there, the
  bound would be one millisecond more.
* The failure counter is renewed as a whole by every failure. It never undercounts the window; `ExactIff` says for
  which histories it equals it, and `Overcounts` that it can read any number with two failures in the window.
* The design document calls the filter free of false negatives and an added IP enforced at once. `NoFalseNegativeIff`
  says when a service is: its last rebuild had read every entry, or it added it itself since. An addition that falls
  between the reads and the rebuild of a sync of the same service is lost until the next one (`AddDuringSyncIsLost`).
  That input is one of the class: in the wired application the served instance syncs only before requests are
  accepted (`app/main.py:45-46`), and the instance the worker syncs never receives a local addition
  (`app/workers/bloom_sync.py:29`).
* With the default threshold the very-low-entropy branch is reserved to perfectly even spacing up to sixteen gaps;
  the default of twenty samples gives up to nineteen (`DefaultThreshold`).
* A flagged request is logged only if the second read of the shadow flag still finds it on. `LostIff` makes that
  exact for every run, `ToggleLosesEvent` is a run from the start in which a request is neither enforced nor logged.
* An IP threshold of zero or less blocks on no failures, so blocks then have no bound (`RecoveryIff`).

## Model

| member | source | states |
|---|---|---|
| RateLimiting.RateLimiter.CheckRateLimit | app/services/rate_limiter.py:40-71 | one call leaves the client's key and gives allowed and remaining as one atomic run of the script does, and touches no other client |
| RateLimiting.RateLimitMiddleware.Dispatch | app/middleware/rate_limit.py:35-65 | excluded paths are passed without touching the store; otherwise the remaining quota, or 429 with Retry-After equal to the window |
| RateLimiting.PruneAndAdd | app/services/rate_limiter.py:17-25 | pruning by score and adding on the stored ordered set are filtering and adding on the set of stamps, with the same count |
| SortedSet.Add | app/services/rate_limiter.py:25 | adding a member equal to its score keeps the order, adds exactly that member, and changes nothing if it is present |
| SortedSet.RemoveScores | app/services/rate_limiter.py:18 | exactly the members with a score in the range are gone and the order is kept |
| RateLimitRuns.Refinement | app/services/rate_limiter.py:17-31 | on every steady run each verdict and remaining value is that of a ledger that never forgets: neither pruning nor EXPIRE is observable, with up to a second of clock drift |
| RateLimitRuns.AdmittedIsLedger | app/services/rate_limiter.py:17-31 | the admitted stamps are the ledger's |
| RateLimitRuns.StateFaithful | app/services/rate_limiter.py:17-28 | the stored set is part of the ledger, lacks only entries outside the window, and its time to live dates from the last admission |
| RateLimitWindows.RunRetains | app/services/rate_limiter.py:17-28 | in every run with a second of drift at most, whatever the order of the stamps, the stored stamps are admitted ones and no more than the limit, and each admitted stamp that was lost has a stored one at least a window later |
| RateLimitWindows.WindowSafety | app/services/rate_limiter.py:17-31 | with stamps that go back by at most d, every interval of k times the window less d, wherever it starts, holds at most k times the limit of admitted stamps; with ordered stamps that is k whole windows |
| RateLimitExcess.WindowExcess | app/services/rate_limiter.py:17-31 | with stamps that go back by at most d, d at most a window, a whole window holds at most d - n admissions more than the limit, n being the largest number with 1 + ... + n <= d, and none more under a limit of one |
| RateLimitExcess.ExcessAttained | app/services/rate_limiter.py:17-31 | for every d up to a second some run in the order of the Redis clock attains that bound |
| RateLimitExcess.ExcessIff | app/services/rate_limiter.py:17-31 | e admissions more than the limit are exceeded in no window of any such run under any limit if and only if e is at least that bound |
| RateLimitWindows.ClocksAlone | app/services/rate_limiter.py:18-27 | for calls in the order of the Redis clock with a second of drift at most, and whatever order of stamps that allows, every k windows less a second each hold at most k times the limit |
| RateLimitExcess.OrderNeededIff | app/services/rate_limiter.py:57-64 | every whole window of every run with stamps going back by at most d stays within the limit if and only if d is at most one, or the limit is at most one or at least the milliseconds of the window |
| RateLimitBounds.VerdictExactly | app/services/rate_limiter.py:17-31 | on every steady run a call is admitted if and only if fewer stamps than the limit were admitted in the window that ends with it, and remaining is what is then left, zero on a rejection |
| RateLimitBounds.GreedyDominates | app/services/rate_limiter.py:17-31 | by every instant at least as many stamps are admitted as in any choice that keeps the limit per window |
| RateLimitBounds.GreedyOptimality | app/services/rate_limiter.py:17-31 | no choice of arrivals keeping the limit is larger than what is admitted, and the i-th admission is never later than its i-th |
| RateLimitBounds.TurnedAway | app/services/rate_limiter.py:23-31 | a stamp that was rejected had a full window behind it |
| RateLimitBounds.RejectionErasure | app/services/rate_limiter.py:18-31 | on every run, whatever its stamps and clocks, deleting any set of rejected calls changes no other verdict and no remaining value |
| RateLimitBounds.RetryAfter | app/middleware/rate_limit.py:52-61 | on every run a client is admitted with its whole quota but one once every stamp it has sent is as old as the advertised window |
| RateLimitBounds.RetryAfterLast | app/middleware/rate_limit.py:52-61 | with stamps that go back by at most d, silence for the window and d since the last one is enough; with ordered stamps the advertised window |
| RateLimitBounds.RetryAfterIsTight | app/middleware/rate_limit.py:52-61 | one millisecond less can still be refused |
| RateLimitBounds.DriftIff | app/services/rate_limiter.py:27 | every run of ordered stamps with bounded growth of the clock offset is decided as the ledger would if and only if the growth is at most a second, or nothing is ever admitted |
| RateLimitBounds.LedgerOrderIff | app/services/rate_limiter.py:17-31 | every run in the order of the Redis clock with stamps going back by at most d is decided as the ledger would if and only if none goes back, or the limit is at most one |
| RateLimitBounds.Accounting | app/services/rate_limiter.py:20-28 | on every run the requests admitted in an interval are the distinct admitted stamps plus the repeats |
| RateLimitBounds.RequestSafety | app/services/rate_limiter.py:57-67 | with a stamp of its own for every request, in whatever order up to d, every k times the window less d hold at most k times the limit of requests |
| RateLimitBounds.RequestBoundIff | app/services/rate_limiter.py:58-59 | the limit bounds the requests of every window on every steady run if and only if it is at most one |
| FailureCounters.CounterIsChain | app/services/abuse_detector.py:25-33 | after any sequence of failures the counter of any key read at any instant is the length of the current chain of its increments |
| FailureCounters.CheckExactly | app/services/abuse_detector.py:54-65 | after any failures the check refuses on the IP axis if and only if its chain reached that threshold, else on the username axis if and only if that one did, each with its count |
| FailureCounters.ChainIsMaximalSuffix | app/services/abuse_detector.py:28-33 | the chain is the maximal suffix of increments with gaps below the window |
| FailureCounters.NeverUndercounts | app/services/abuse_detector.py:28-33 | the number of increments in the window is at most the chain |
| FailureCounters.ExactIff | app/services/abuse_detector.py:28-33 | after any run of failures the counter read at an instant equals the number of increments in the window if and only if no increment outside it is linked to that instant by gaps all below the window |
| FailureCounters.Overcounts | app/services/abuse_detector.py:28-33 | for every n some run of failures makes the counter read n with at most two failures in the window |
| LoginProtocol.BoundedOvershoot | app/routers/auth.py:64-88 | with at most k increments of a key pending past the check, its counter never exceeds threshold - 1 + k in any interleaving |
| LoginProtocol.OvershootPerLogin | app/services/abuse_detector.py:25-33 | where no IP is also the username, that is with at most k logins of the key past the check |
| LoginProtocol.OvershootAttained | app/routers/auth.py:64-88 | for every threshold and k some interleaving reaches that bound |
| LoginProtocol.LockoutWindow | app/routers/auth.py:64-88 | with at most k logins of a key past the check, every half-open interval of the window's length holds at most threshold - 1 + k recorded failures of it |
| LoginProtocol.LockoutSafety | app/routers/auth.py:64-88 | when logins run one at a time it holds at most the threshold |
| LoginProtocol.RefusalsExtendNothing | app/routers/auth.py:64-74 | while a key is locked out and nothing is past the check, its counter and deadline are frozen whatever logins arrive, and read zero from the deadline on |
| LoginHistory.RecordedExactly | app/routers/auth.py:63-92 | in every interleaving the recorded failures, read off the events alone, are those of the logins that passed the check and finished with a wrong password |
| LoginHistory.ValidLoginsLeaveNothing | app/routers/auth.py:83-96 | a run in which every password is right leaves no counter and records nothing |
| LoginProtocol.CountersArePlayed | app/routers/auth.py:83-88 | the counters are those of the recorded failures alone |
| AbuseDetection.AbuseDetector.RecordAuthFailure | app/services/abuse_detector.py:14-35 | both axes are incremented and renewed in one step |
| AbuseDetection.AbuseDetector.IsCredentialStuffing | app/services/abuse_detector.py:37-65 | the IP axis is judged before the username axis, expired counters as zero, with the count in the reason |
| AbuseDetection.AbuseDetector.RecordRequestTiming | app/services/abuse_detector.py:67-81 | the client's samples become the trimmed addition of the stamp with a renewed hour |
| AbuseDetection.AbuseDetector.ComputeTimingEntropy | app/services/abuse_detector.py:83-107 | none below three live samples; otherwise below a threshold if and only if the standard deviation of all their gaps is |
| AbuseDetection.AbuseDetector.IsBotBehavior | app/services/abuse_detector.py:109-128 | the request is recorded first; the client is a bot if and only if the standard deviation of the gaps of its live samples, that one included, is below the threshold |
| Auth.AuthRouter.Login | app/routers/auth.py:55-96 | an uninterrupted login is the protocol's two steps: forbidden if and only if a counter reached its threshold, a token and an unchanged store for valid credentials below both, unauthorized with both axes incremented for invalid ones |
| Deviation.BelowIsStdevBelow | app/services/abuse_detector.py:107-125 | the integer comparison is the comparison of the sample standard deviation with the threshold |
| Deviation.HalfIsHalf | app/services/graduated_response.py:114-118 | below the halved threshold is below half of the threshold, for every threshold |
| Deviation.SpreadIsPairwise | app/services/abuse_detector.py:101-107 | m times the sum of squares minus the squared sum is the sum of squared differences of all pairs |
| Deviation.ScaledIsSpread | app/services/abuse_detector.py:107 | that integer is the sum of squared deviations from the mean, times m |
| Deviation.SpreadGap | app/services/abuse_detector.py:101-107 | it is zero for even gaps and at least m - 1 for uneven ones |
| Deviation.BelowMeansEvenIff | app/services/graduated_response.py:114-120 | for m gaps a deviation below a threshold proves even spacing if and only if m times its square is at most one |
| Deviation.DefaultThreshold | app/services/graduated_response.py:114-120 | at half of the default threshold that is so if and only if there are at most sixteen gaps |
| Deviation.BelowMonotone | app/services/graduated_response.py:103 | a smaller deviation is below every threshold a larger one is below |
| Timing.StreamingTopK | app/services/abuse_detector.py:73-81 | the stored samples are exactly the max_samples largest distinct stamps since the key last expired, in any order of recording |
| Timing.EntropyIsDeviation | app/services/abuse_detector.py:98-107 | the measure of the samples is below a threshold, or its half, if and only if the sample standard deviation of all gaps of consecutive samples is |
| Timing.PeriodicIsEven | app/services/abuse_detector.py:76-107 | a client turned periodic shows perfectly even gaps from its third request, or after any history from its max_samples-th |
| Graduated.GraduatedResponseService.GetClientState | app/services/graduated_response.py:36-45 | soft-blocked exactly while the block key is live |
| Graduated.GraduatedResponseService.ApplySoftBlock | app/services/graduated_response.py:47-56 | the block is set with a new deadline |
| Graduated.GraduatedResponseService.RemoveSoftBlock | app/services/graduated_response.py:58-62 | the block is gone and no other changes |
| Graduated.GraduatedResponseService.ComputeAbuseScore | app/services/graduated_response.py:72-129 | the decision on the signals; on a soft block of an IP not blocked before it reads blocked for exactly 300 seconds, and in every other case the blocks are unchanged |
| Graduated.SeverityMonotone | app/services/graduated_response.py:95-129 | more failures, more regular timing or an existing block never make the response milder |
| Graduated.RatioTest | app/services/graduated_response.py:101-123 | the ratio test at 0.7 is an integer comparison |
| Graduated.PeriodicIsBlocked | app/services/graduated_response.py:96-120 | a client turned periodic is judged soft block whatever the other signals |
| Graduated.BlockHistory | app/services/graduated_response.py:36-62 | an IP reads as blocked exactly when some application still runs and was not removed since |
| GatewayEvents.FlagIsLastSet | app/core/redis_client.py:69-72 | in every run the flag a request reads is the one last set, and the configured default before any |
| GatewayEvents.CoreIsEvents | app/middleware/abuse_detector.py:43-66 | in every interleaving counters, blocks and samples are those of the failed logins, block events and recordings among the events of the run |
| GatewayEvents.EveryAnswerExplained | app/middleware/abuse_detector.py:43-102 | in every interleaving each answer rests on steps of the request itself in this order: the failures counting on its IP and its client, its own stamp recorded, the deviation of the samples then live, a verdict on these and on whether its IP was blocked, the block set, and the flag read |
| GatewayEvents.SoftBlockIsBacked | app/services/graduated_response.py:95-120 | in every interleaving a request past a soft-block verdict found its IP blocked or set the block itself |
| GatewayEvents.EnforcedWhenOff | app/middleware/abuse_detector.py:67-102 | with shadow mode off by default and never switched on, every finished request judged soft block got 429 with Retry-After 300, every throttled one Retry-After 2, and nothing is logged |
| GatewayRuns.CoreIsPlayed | app/middleware/abuse_detector.py:43-66 | in every interleaving counters and blocks are those of the recorded failures and block events |
| GatewayRuns.BlockHistoryOfRuns | app/services/graduated_response.py:95-120 | the block history theorem for every run of interleaved decisions, admin applications and removals |
| GatewayRuns.ShadowNonInterference | app/middleware/abuse_detector.py:43-102 | two runs that differ only in the shadow flag keep the same counters, samples and blocks and reach the same verdicts, in every interleaving |
| GatewayRuns.ShadowNeverEnforces | app/middleware/abuse_detector.py:67-78 | while the flag is on every request is passed on without Retry-After |
| GatewayRuns.Recovery | app/middleware/abuse_detector.py:44-66 | a block caused by IP failures is gone once the failure window, the request's delay and the block's time to live have passed since the last failure |
| GatewayRuns.RecoveryIff | app/services/graduated_response.py:106-108 | every such run recovers by that bound if and only if the IP threshold is positive |
| GatewayRuns.SamplesArePlayed | app/middleware/abuse_detector.py:51-53 | in every interleaving a client's samples are those of its own recordings |
| GatewayRuns.DetectionLatency | app/middleware/abuse_detector.py:51-65 | in every interleaving a request reading the samples of a client turned periodic goes on to be judged soft block |
| GatewayShadow.RunLogMatches | app/middleware/shadow_mode.py:22-51 | the log holds exactly the events of the requests that finished logging, each under its rule and deadline |
| GatewayShadow.ShadowConservation | app/services/shadow_logger.py:64-83 | a scan listing each live key once gives each rule the number of requests flagged with it whose event is at most a day old, and the flagged requests without an event are exactly those whose second flag read found the flag off |
| GatewayShadow.LostIff | app/middleware/shadow_mode.py:28-49 | in every interleaving a finished flagged request is without an event if and only if its second flag read found the flag off |
| GatewayShadow.ToggleLosesEvent | app/middleware/shadow_mode.py:28-38 | for every request a run from the start, with a toggle between its two flag reads, leaves it neither enforced nor logged |
| ShadowLog.Aggregate | app/services/shadow_logger.py:73-83 | total is the number of events and the sum of the per-rule counts, and each of these is exact |
| ShadowLog.TallyIsCount | app/services/shadow_logger.py:73-79 | a rule's tally is the number of listed values that carry it, those without a rule counting as unknown |
| ShadowLog.TotalUpdate | app/services/shadow_logger.py:78 | the sum over the rules changes by exactly what one rule's count changes |
| ShadowLog.ShadowLogger.LogShadowEvent | app/services/shadow_logger.py:28-46 | the event is stored under its request with a day to live |
| ShadowLog.ShadowLogger.GetShadowStats | app/services/shadow_logger.py:54-83 | the statistics of the listed keys, those expired since the scan not counted |
| Middleware.ShadowModeMiddleware.Dispatch | app/middleware/shadow_mode.py:19-51 | an event is written exactly when the stored flag, or the default without one, is on and an enforcement was noted |
| Middleware.AbuseDetectorMiddleware.Dispatch | app/middleware/abuse_detector.py:33-102 | store and response are those of the machine's request run without interruption: decision, block, answer and log with the flag on, off or missing |
| Bloom.BloomFilterService.Load | app/services/bloom_filter.py:100-104 | filling a filter in any order gives exactly the bits of the entries |
| Bloom.BloomFilterService.SyncFromRedis | app/services/bloom_filter.py:80-114 | both filters are exactly the bits of the Redis sets, a query answers true exactly for what shares all its bits with their entries, and the counts are their sizes |
| Bloom.BloomFilterService.AddIpToRedis | app/services/bloom_filter.py:55-58 | the IP is in Redis and recognised at once, and the answer for another one changes only through a bit that is new |
| Bloom.BloomFilterService.AddAgentToRedis | app/services/bloom_filter.py:73-76 | the same for an agent |
| Bloom.ContainsIff | app/services/bloom_filter.py:48-53 | a filter answers true for exactly those strings all of whose bits are bits of its entries, its entries among them |
| Bloom.AddedExactly | app/services/bloom_filter.py:55-76 | in every interleaving the Redis sets are the entries added in the run |
| Bloom.FiltersAreKnown | app/services/bloom_filter.py:55-107 | in every interleaving and for all hash functions the filters are exactly the bits of what the last rebuild had read and what was added locally since |
| Bloom.NoFalseNegativeIff | app/services/bloom_filter.py:55-107 | a service has no false negative for every choice of hash functions if and only if each entry of the Redis sets had been read by its last rebuild or was added locally since |
| Bloom.SyncCompletes | app/services/bloom_filter.py:88-107 | whatever interleaves, a service that reads both sets and rebuilds with no addition since its first read is up to date |
| Bloom.Convergence | app/services/bloom_filter.py:88-107 | in every interleaving a service whose last sync began after the last addition has no false negative, and any two such hold identical bits |
| Bloom.NoForeignBits | app/services/bloom_filter.py:55-107 | in every interleaving a filter's bits are bits of entries of the Redis sets |
| Bloom.AddDuringSyncIsLost | app/services/bloom_filter.py:55-101 | an entry added between a sync's reads and its rebuild is in Redis and not in the filter |

## Left out

* HTTP, Starlette and FastAPI plumbing, response bodies, metrics and logging; the chain of middlewares around the modelled ones.
* JWT, bcrypt and the database: the password check is an arbitrary boolean of a login; registration and roles are not modelled.
* The Redis server is not part of this model: its commands are taken with their documented effect, a key is readable strictly before its deadline, and commands of one pipeline or script take effect together.
* The numbers inside a Bloom filter: hash functions are an arbitrary function, capacity is assumed sufficient, and no false-positive rate is stated.
* The worker that calls the sync every minute: it syncs an instance of its own, so nothing is stated about the served instance following it.
* Floating point: the deviation and the ratio are compared exactly, as rationals.
* The throttling delay: when the steps of a request happen is an input of the machine.
* Case folding beyond ASCII in the text of the shadow flag; no other letter folds to one of those of true.
* JSON text: a value of the shadow log is an event with an optional rule, or not an event; its other fields are not kept.
* Negative window lengths in the window bounds, and windows below one second in greedy optimality; the service itself is modelled for every integer.
* Stamps out of order in greedy optimality: it is stated for ordered stamps, where the ledger decides.
* HARD_BLOCK as an outcome: the decision never returns it.
* LoginProtocol.OvershootPerLogin: takes the IP and the username of a login as different strings, because one failure counts twice otherwise.
* GatewayRuns.Recovery: takes the delay between reading the counters and setting the block as a parameter, because an await has no bound of its own.
