# Verified model of RPCGofer

RPCGofer is a JSON-RPC proxy in front of several blockchain nodes. This project models its stateful
algorithms in Dafny and proves what they guarantee together. Objects that the program updates in place are
classes whose methods are proved against specification functions; concurrent parts are state machines over
their atomic steps, with theorems over all runs. The network is an environment that chooses outcomes.

| area | modules |
|---|---|
| selection and failover | `Numbers`, `Rotation`, `Fairness`, `Selections`, `Upstreams`, `Balancer`, `Text`, `JsonRpc`, `Retry`, `Config`, `Loading` |
| health monitoring | `Health`, `Verdicts`, `MaxBlock` |
| subscriptions | `Lru`, `Fnv`, `Dedup`, `ConcurrentDedup`, `SharedSubs`, `Bookkeeping`, `Sessions`, `Gate` |
| response cache and batches | `CacheKeys`, `ResponseCache`, `Handler` |
| WebSocket correlation | `WebSocket` |

`dafny verify dfyconfig.toml` checks everything.

Clocks, generated IDs, upstream answers, health reads and cancellation are parameters of the methods
(`now`, `clock`, `id`, `up`, `ask`, `World`). The SHA-256 digest is a function parameter;
lemmas that need two particular digests not to collide say so.

## Where the code differs from its documentation

The model follows the code.

- `docs/load-balancing.md:12` promises more requests for heavier upstreams. The balancer object is exactly
  fair, but `internal/proxy/retry.go:295-299` makes a fresh one for every request, so each first attempt goes
  to the first heaviest candidate (`Fairness.FreshPicksFirstHeaviest`).
- `docs/load-balancing.md:175` says the balancer state is reset when the pool changes. Nothing calls `Reset`;
  the loop recovers from any stale state by itself (`Fairness.Resynchronises`).
- `docs/health-monitoring.md:87` and `docs/configuration.md:67` say that threshold 0 disables lag checks. No
  threshold does: they are off exactly when the recovery timeout is not positive or there is at most one upstream
  (`Health.LagChecksOffIff`). A negative `lagRecoveryTimeout` passes validation and switches them off.
- `docs/subscriptions.md:278` says the health monitor gets the deduplicated events. It skips deduplication
  (`internal/subscription/shared.go:605-607`) and sees the whole stream.
- The comment at `internal/proxy/retry.go:46` says all available upstreams are tried. That holds when
  MaxAttempts is at least their number, and the limit is exact (`Retry.AttemptLimitIsTight`).
- Replies to a batch are matched by position. Section 6 of the JSON-RPC 2.0 Specification allows any order; slots
  carry their own IDs exactly when replies come in request order (`Handler.OwnIdsIffRepliesInOrder`). The records
  behind `Handler` pair a reply with the request at its position.

## Model

| member | source | states |
|---|---|---|
| `Fairness.ExactFairness` | internal/balancer/balancer.go:29-64 | from the cursor left by any number of calls on a fresh or reset balancer with a fixed list, the next (sum of weights)/gcd calls pick upstream i exactly weight/gcd times and return to where they began; the first cycle from fresh ends at (n-1, gcd) |
| `Fairness.Resynchronises` | internal/balancer/balancer.go:48-63 | whatever index and threshold were carried over from other lists, once the list stays fixed every cycle that begins after n*(ceil((currentWeight-g)/g)+1) calls is exactly fair |
| `Balancer.ServedByWeight` | internal/balancer/balancer.go:29-64 | the same of what the calls return: on a balancer that was fresh at first, as long as the candidates stay the same, any (sum of weights)/gcd consecutive calls return every upstream exactly weight/gcd times |
| `Rotation.TurnsBounded` | internal/balancer/balancer.go:48-63 | from any stale cursor the selection loop stops within n turns, plus n for every wrap an excessive threshold needs |
| `Rotation.NextIsFirstHit` | internal/balancer/balancer.go:48-63 | the loop stops at the first position whose weight reaches the threshold, and at none before it |
| `Rotation.WrapsIsCeiling` | internal/balancer/balancer.go:51-56 | the number of wraps in the bound is the ceiling of excess over gcd |
| `Rotation.WheelOfIsGood` | internal/balancer/balancer.go:95-116 | for two or more positive weights the computed gcd and maximum make a wheel on which the loop terminates: the gcd is positive and divides every weight, the maximum is attained |
| `Fairness.FreshPicksFirstHeaviest` | internal/proxy/retry.go:295-299 | a fresh balancer always picks the first upstream of maximal weight; with one balancer per request the documented per-request weight split does not come about |
| `Balancer.WeightedRoundRobin.Next` | internal/balancer/balancer.go:29-64 | over the untried mains, or the untried fallbacks when no main is left: null exactly when all are excluded, a fallback only when all mains are; one candidate gives that one and leaves the cursor, more give the first hit of the rotation, for any cursor |
| `Balancer.WeightedRoundRobin.Spin` | internal/balancer/balancer.go:48-63 | the unbounded loop terminates and leaves exactly the cursor of the first hit |
| `Balancer.WeightedRoundRobin.Reset` | internal/balancer/balancer.go:127-133 | back to the fresh cursor (-1, 0) |
| `Balancer.FilterExcluded` | internal/balancer/balancer.go:80-92 | exactly the upstreams whose names are not excluded, in order |
| `Balancer.UntriedInOrder` | internal/balancer/balancer.go:80-92 | the filtered list is the given one at increasing positions, namely at all those whose names are not excluded: order and multiplicity are kept |
| `Balancer.GcdWeights` | internal/balancer/balancer.go:95-105 | the loop computes the gcd of all weights |
| `Balancer.ComputeGcd` | internal/balancer/balancer.go:119-124 | Euclid's loop computes Gcd |
| `Balancer.MaxWeight` | internal/balancer/balancer.go:108-116 | the loop computes the maximal weight |
| `Numbers.GcdIsGcd` | internal/balancer/balancer.go:119-124 | Gcd is greatest in the sense of divisibility: it divides both numbers and every common divisor divides it |
| `Numbers.GcdAllIsGcd` | internal/balancer/balancer.go:95-105 | the gcd of a list of positive weights is positive, divides each, and every common divisor divides it |
| `Numbers.MaxAllIsMax` | internal/balancer/balancer.go:108-116 | the maximum is an upper bound and is attained |
| `Retry.RetryIsComplete` | internal/proxy/retry.go:47-121 | unique names, fixed health, no cancellation, MaxAttempts at least the number of healthy upstreams: a conclusive answer whenever some healthy upstream would give one; if none would, the run gives up after asking every healthy upstream exactly once |
| `Retry.CallerGetsTheAnswer` | internal/proxy/retry.go:47-121 | the same for the caller of Execute: under these conditions the result is a response actually received that is a success or a non-retryable error, whenever some healthy upstream would give one |
| `Retry.CallerGetsTheBatch` | internal/proxy/retry.go:184-250 | the same for ExecuteBatch: a batch without retryable errors whenever some healthy upstream with an endpoint would give one |
| `Retry.RunsEndForAReason` | internal/proxy/retry.go:70-109 | for every run: the last attempt is the first conclusive one, if any is; none follows a cancellation; a context error means a cancellation; giving up means that the limit was reached or everyone healthy at the last read had been asked |
| `Retry.NoCandidates` | internal/balancer/balancer.go:68-92 | nobody is left to ask exactly when everyone healthy at the read shares a name with someone already asked |
| `Retry.GaveUpReturnsLatestError` | internal/proxy/retry.go:111-121 | a request that gave up returns the latest retryable error response received, or an error if there was none |
| `Retry.AttemptLimitIsTight` | internal/proxy/retry.go:57-66 | the attempt limit of the completeness theorem is exact: a run that gives up with fewer attempts than healthy upstreams is also a run of a world in which a healthy upstream was ready to answer |
| `Retry.AttemptsAreSafe` | internal/proxy/retry.go:57-109 | under changing health: attempts are pairwise distinct, at most min(max(1, MaxAttempts), pool size), each healthy when its list was read, and a fallback is asked only when every main healthy at that read was asked before |
| `Retry.GaveUpAsksEveryone` | internal/proxy/retry.go:57-109 | with health fixed and enough attempts, giving up means that exactly the healthy upstreams were asked |
| `Retry.Executor.Execute` | internal/proxy/retry.go:47-121 | every execution is a run of the attempt protocol; a conclusive run returns the answer of its last attempt, a cancelled one the context error, one that gave up the latest response received or else a failure; with retries disabled the outcome of the single attempt, no upstream exactly when nobody was healthy |
| `Retry.Executor.Attempt` | internal/proxy/retry.go:138-146 | one upstream from the balancer among the untried candidates, chosen by the rotation, or none exactly when there is no candidate |
| `Retry.Executor.Once` | internal/proxy/retry.go:138-181 | a single attempt and its outcome: no upstream, transport error, or the reply |
| `Retry.Executor.ExecuteBatch` | internal/proxy/retry.go:184-250 | batches follow the same protocol and a conclusive run returns the last attempt's batch; a batch with a retryable error inside does not conclude, and an upstream without HTTP endpoint is spent without serving |
| `Retry.Executor.HasRetryable` | internal/proxy/retry.go:207-214 | whether some response of a batch carries a retryable error |
| `Retry.BatchSuccessIsWhole` | internal/proxy/retry.go:184-292 | a batch success comes whole from one upstream with an endpoint, with no retryable error in it |
| `Retry.LastReplyIsLatest` | internal/proxy/retry.go:79-90 | the kept response is the latest one received: every later attempt was unreachable |
| `JsonRpc.IsRetryableError` | internal/jsonrpc/response.go:123-160 | an error is retryable unless its code is one of the four client errors or its message contains one of the logical-error phrases in any capitalisation |
| `JsonRpc.RetryableMeans` | internal/jsonrpc/response.go:123-160 | retryable exactly when the code is none of -32700, -32600, -32601 and -32602 and none of the six phrases occurs in the message in any capitalisation |
| `JsonRpc.AllFailedMeans` | internal/proxy/handler.go:129-132 | the failure answer carries the caller's ID, no result, code -32603 and its message |
| `JsonRpc.RetryableIgnoresCase` | internal/jsonrpc/response.go:138-160 | the verdict does not depend on the message's capitalisation |
| `Text.Contains` | internal/jsonrpc/response.go:163-173 | found exactly when some window of the text equals the phrase up to ASCII case |
| `Text.OccursMeans` | internal/jsonrpc/response.go:163-173 | containment is occurrence at some position, ignoring case |
| `Text.ContainsLower` | internal/jsonrpc/response.go:167-173 | the index loop finds an exact occurrence if and only if there is one |
| `Text.LowerBytes` | internal/jsonrpc/response.go:176-186 | the byte loop computes the lower-case text |
| `Text.LowerDecidesEqualFold` | internal/jsonrpc/response.go:176-186 | two texts have the same lower-case form exactly when they are equal up to ASCII case; folding moves A to Z up by 32 and nothing else |
| `Upstreams.Pool.GetHealthy` | internal/upstream/pool.go:101-127 | the healthy upstreams of a role, in configuration order |
| `Upstreams.ListedInOrder` | internal/upstream/pool.go:101-127 | the list is the configured one at increasing positions, namely at all those of the role that are healthy |
| `Upstreams.Pool.GetMainMaxBlock` | internal/upstream/pool.go:220-234 | the largest block of a healthy main, 0 without one |
| `Upstreams.Pool.HasHealthyMain` | internal/upstream/pool.go:237-247 | true exactly when some main is healthy |
| `Upstreams.Pool.GetByName` | internal/upstream/pool.go:145-155 | the upstream of that name, null exactly when there is none; the only one when names are unique |
| `Config.Config.ApplyDefaults` | internal/config/config.go:32-94 | zero settings get their defaults, empty roles become main, zero weights become 1; nothing else changes |
| `Config.Config.Validate` | internal/config/config.go:96-192 | accepts exactly the valid configurations, and a reported problem is really there |
| `Config.Config.ValidateUpstreams` | internal/config/config.go:116-148 | a group passes exactly when each upstream has a name new to the group, an endpoint, a positive weight and a known role |
| `Loading.Load` | internal/upstream/pool.go:23-52 | defaults, validation and one pool per group: exactly the acceptable files are accepted; upstream by upstream a pool has the file's name, its weight or else 1, the fallback role exactly where the file says fallback; every pool built has the configured upstreams with positive weights and unique names, all healthy at block 0, as balancer, executor and health monitor require; the limits of attempts, deduplication and subscriptions are positive |
| `Loading.NewPool` | internal/upstream/pool.go:23-52 | one fresh healthy upstream per entry, in order, with its name, weight, role and endpoint |
| `Config.NegativeWeightIsRejected` | internal/config/config.go:82-142 | a negative weight survives the defaults and is then rejected |
| `Config.AcceptedFilesAreValid` | internal/config/config.go:31-192 | filling in defaults and validating accepts a file exactly when the file itself has named, distinct, non-empty groups of named, distinct upstreams with an endpoint, a weight of at least 0 and no or a known role, ports up to 65535, a known or no log level, no negative limit, and a lifetime and room for an enabled cache |
| `Config.DefaultsAre` | internal/config/config.go:32-80 | the default of every setting; filling in completes any settings and leaves complete ones alone |
| `Health.LagInvariant` | internal/upstream/health.go:80-106 | over all event sequences with a positive recovery timeout: a healthy upstream that lags beyond the threshold has the check for the current maximum still pending, or delivered a newHeads event after that check ran |
| `Verdicts.HealthIsTheLastVerdict` | internal/upstream/health.go:80-538 | over all runs and any threshold: an upstream is healthy exactly when everything that harmed it, a failed poll of its own or a lag check whose target it trailed by more than the threshold, was followed by something that heals: its newHeads event, or its poll or a refresh that found it within the threshold of the maximum, both above 0 |
| `Verdicts.OneCheckPerMaximum` | internal/upstream/health.go:452-486 | over all runs with a positive recovery timeout: for every block, pending plus executed lag checks are one if some report was the first to reach it and all below, none otherwise |
| `Verdicts.BlockIsHighestReport` | internal/upstream/types.go:94-107 | over all runs an upstream's block is the highest it has reported, by event or poll |
| `Verdicts.MaxIsHighestReport` | internal/upstream/health.go:452-461 | over all runs maxBlock is the highest block anyone has reported; checks and refreshes do not move it |
| `Verdicts.ReportEffect` | internal/upstream/health.go:512-538 | a report leaves its upstream healthy exactly if it is a newHeads event, or it was healthy, or it is now within the threshold of the new maximum, both above 0; block, maximum and pending checks in numbers; others untouched |
| `Verdicts.RefreshEffect` | internal/upstream/health.go:541-559 | a refresh heals exactly those within the threshold of the maximum and changes nothing else |
| `Verdicts.CheckEffect` | internal/upstream/health.go:489-509 | a lag check harms exactly those that trail its target by more than the threshold, heals nobody and uses itself up |
| `Verdicts.FailedPollEffect` | internal/upstream/health.go:391-430 | a failed poll marks its upstream and touches nothing else |
| `Health.PollersAreChecked` | internal/upstream/health.go:391-449 | an upstream that only polls never needs the second case |
| `Health.CheckPendingOrRan` | internal/upstream/health.go:471-486 | the check for the current maximum is always pending or has run |
| `Health.NoTimeoutNoChecks` | internal/upstream/health.go:471-474 | without a positive recovery timeout no lag check is ever scheduled or run |
| `Health.TopIsHealthy` | internal/upstream/health.go:489-538 | timers firing in any order: an upstream at the maximal positive block is healthy exactly when the last event that judged it was not a failed poll |
| `Health.HealthAtGenesis` | internal/upstream/health.go:512-520 | the remaining case, maximum 0: healthy exactly when no failed poll followed the last newHeads event |
| `Health.GenesisPollDoesNotRecover` | internal/upstream/health.go:512-520 | a concrete run in which a successful poll at block 0 leaves a failed upstream unhealthy |
| `Health.PoolStaysUp` | internal/upstream/health.go:489-538 | without failed polls some upstream of a non-empty pool is healthy in every reachable state |
| `Health.LagChecksOffIff` | internal/upstream/health.go:471-509 | for every threshold and pool: only failed polls ever make an upstream unhealthy exactly when the recovery timeout is not positive or there is at most one upstream; the threshold has no say, contrary to docs/health-monitoring.md:87 |
| `Health.LaggardIsMarked` | internal/upstream/health.go:489-509 | for every threshold, 0 included, every positive timeout and every pool of two or more: a run without failed polls that leaves an upstream unhealthy |
| `Health.AlwaysTracked` | internal/upstream/health.go:452-461 | in every reachable state maxBlock is the largest block of any upstream and every pending check is for a positive block up to it |
| `Health.HealthMonitor.OnBlock` | internal/upstream/health.go:80-109 | the handler performs exactly the newHead event of the named upstream; unknown names and unparseable headers change nothing |
| `Health.HealthMonitor.PollBlockNumber` | internal/upstream/health.go:391-449 | the handler performs exactly the poll event of its outcome: unhealthy after a failure, healthy after a success that leaves it within the threshold of the maximum |
| `Health.HealthMonitor.CheckLagForBlock` | internal/upstream/health.go:489-509 | a firing timer performs exactly the lag check of its target on every upstream |
| `Health.HealthMonitor.CheckUpstreamCaughtUp` | internal/upstream/health.go:512-538 | healthy exactly if it was, or if the maximum exceeds its block by at most the threshold and both are positive |
| `Health.HealthMonitor.RefreshAllHealth` | internal/upstream/health.go:541-559 | maxBlock becomes the largest block and every upstream is re-examined against it |
| `Health.HealthMonitor.UpdateMaxBlock` | internal/upstream/health.go:452-461 | the maximum is raised if the block is larger, and only then reported as new |
| `Health.HealthMonitor.ScheduleLagCheck` | internal/upstream/health.go:471-486 | one pending check more, none without a positive timeout |
| `MaxBlock.MaxBlockTracks` | internal/upstream/types.go:94-107 | with compare-and-swap loops and maximum updates interleaving: the maximum never exceeds the largest block, and any excess of a block over it is a report in flight |
| `MaxBlock.AlwaysGrows` | internal/upstream/types.go:94-107 | along any interleaving every block and the maximum only grow |
| `MaxBlock.PublishedForever` | internal/upstream/health.go:452-461 | a report that was published stays below its upstream's block and the maximum for ever |
| `MaxBlock.BegunAndPublished` | internal/upstream/health.go:452-461 | a report that began with block b at upstream i and was published keeps i's block and the maximum at b or above for ever |
| `MaxBlock.ReportsKeepTheirBlock` | internal/upstream/types.go:94-107 | a report under way carries the upstream and block it began with |
| `MaxBlock.FailedSwapMeansGrowth` | internal/upstream/types.go:99-106 | a swap fails only because a competing report raised the block since it was read |
| `MaxBlock.QuiescentRefresh` | internal/upstream/health.go:541-553 | with no report in flight a refresh leaves the maximum unchanged |
| `Upstreams.Upstream.UpdateBlock` | internal/upstream/types.go:94-107 | the compare-and-swap loop against any series of rival writes between its loads and swaps terminates with exactly the specified outcome |
| `Upstreams.ContentionOnlyRaises` | internal/upstream/types.go:94-107 | won or lost, the block ends at least at what it was and what was reported; a report wins exactly by setting it, and loses only to a block at least as high |
| `Dedup.Deduplicator.IsDuplicate` | internal/subscription/dedup.go:28-43 | a keyed event is a duplicate exactly when its key is among the last `size` accepted keys; a keyless event never is and leaves the cache unchanged; any size+1 consecutive accepted keys stay distinct |
| `Dedup.KeysIdentifyEvents` | internal/subscription/dedup.go:46-104 | two events share a key exactly when they are the same head, log or transaction, or both are of unknown type with equal hashes; keys of different event types never meet |
| `Dedup.KeylessEvents` | internal/subscription/dedup.go:60-94 | an event has no key exactly when its hash, or a part that identifies a log, is missing or empty |
| `Dedup.SuppressedMeans` | internal/subscription/dedup.go:28-43 | a key is suppressed exactly when it is at one of the last `size` positions of the accepted ones |
| `Dedup.Deduplicator.Clear` | internal/subscription/dedup.go:97-99 | an empty window |
| `Dedup.AcceptedKeysDistinct` | internal/subscription/dedup.go:28-43 | over any stream, any size+1 consecutive accepted keys are pairwise distinct |
| `Dedup.AcceptedKeysOccur` | internal/subscription/dedup.go:28-43 | over any stream, the accepted keys are exactly the keys that occur in it |
| `Dedup.LogKeysSeparate` | internal/subscription/dedup.go:73-83 | two logs get the same key only if block hash, transaction index and log index agree |
| `Fnv.HashBytes` | internal/subscription/dedup.go:107-114 | the loop computes 64-bit FNV-1a, wrapping at 2^64 (section 2 of draft-eastlake-fnv) |
| `Fnv.KnownHashes` | internal/subscription/dedup.go:107-114 | the published test vectors of the empty text and of "a" |
| `Fnv.KnownPrints` | internal/subscription/dedup.go:55-57 | hexadecimal in lower case, highest digit first |
| `Fnv.PrimeIsInvertible` | internal/subscription/dedup.go:107-114 | multiplication by the odd FNV prime is invertible modulo 2^64 |
| `Fnv.MixIsInjective` | internal/subscription/dedup.go:107-114 | each step is injective in the running hash and in the byte |
| `Fnv.OneByteSeparates` | internal/subscription/dedup.go:107-114 | inputs of equal length that differ in exactly one byte never get the same hash |
| `Fnv.HexIsInjective` | internal/subscription/dedup.go:55-57 | two different hashes never print alike |
| `Dedup.UnknownKeysSeparate` | internal/subscription/dedup.go:55-57 | events of an unknown type that differ in exactly one byte get different keys |
| `ConcurrentDedup.AnnouncedOncePerReader` | internal/subscription/shared.go:435-531 | M readers interleaving Contains, Add and broadcast without eviction: no key is broadcast as new more than M times, and once the readers are between events every finished key was broadcast as new |
| `ConcurrentDedup.AnnouncedExactlyOnce` | internal/subscription/shared.go:435-531 | if check-then-add sections never overlap on a key, every finished key was broadcast as new exactly once |
| `ConcurrentDedup.ExactlyOnceIffNoOverlap` | internal/subscription/shared.go:435-531 | over any run that ends with the readers between events: every finished key was broadcast as new exactly once if and only if no check-then-add sections overlapped on a key |
| `ConcurrentDedup.OverlapAnnouncesTwice` | internal/subscription/dedup.go:34-42 | every overlap, in whatever run, ends in at least two broadcasts of that key as new |
| `ConcurrentDedup.EveryReaderCanAnnounce` | internal/subscription/dedup.go:34-42 | the bound of one broadcast per reader is attained for every number of readers |
| `ConcurrentDedup.AnnouncedWhenDoneIffOneReader` | internal/subscription/shared.go:435-531 | that a finished key has been broadcast as new holds in every state of every run exactly for at most one reader |
| `ConcurrentDedup.DoneBeforeAnnounced` | internal/subscription/shared.go:487-503 | for any two or more readers and any key a reachable state in which a reader is done with it before its first broadcast |
| `SharedSubs.SharedSubscription.ReadUpstreamEvents` | internal/subscription/shared.go:435-512 | of the events taken before the reader finds that it should stop or a read fails, a skip-dedup subscriber is handed every one and a client exactly those not suppressed by the window; other messages are ignored; reconnection is asked for exactly if it never had to stop |
| `SharedSubs.SharedSubscription.BroadcastEvent` | internal/subscription/shared.go:516-531 | each open subscriber is handed the event once, except clients when it is a duplicate |
| `SharedSubs.ClientsSeeWhatIsAccepted` | internal/subscription/shared.go:487-531 | the keys a client sees are exactly the accepted keys, in order |
| `SharedSubs.ClientsSeeNoRepeats` | internal/subscription/shared.go:487-531 | among any size+1 consecutive keyed events a client sees no key twice |
| `SharedSubs.ClientsMissNothing` | internal/subscription/shared.go:487-531 | every key of the stream was accepted in it or was in the window before |
| `SharedSubs.TakenAreTheEvents` | internal/subscription/shared.go:435-512 | what a reader takes are all events, in order, before the first message at which it finds that it should stop, or all if it never does |
| `SharedSubs.ClientsGetTheNewOnes` | internal/subscription/shared.go:487-531 | a client is handed the stream at increasing positions, namely at all those of events that are not suppressed when they arrive |
| `SharedSubs.ClientsGetEveryNewHead` | internal/subscription/shared.go:487-531 | from an empty window a client gets every head whose hash no earlier head of the stream had; with a window as wide as the stream it gets no other |
| `SharedSubs.FirstArrivalIsNew` | internal/subscription/shared.go:487-531 | an event without a key, or whose key is neither in the window nor earlier in the stream, reaches clients |
| `SharedSubs.CopiesAreSuppressed` | internal/subscription/shared.go:487-531 | copies that arrive within `size` events of the first do not |
| `SharedSubs.SharedSubscriptionManager.Subscribe` | internal/subscription/shared.go:48-83 | joins the subscriber to the key, creating the shared subscription, with an empty deduplicator of its own, if an upstream accepts it; other keys keep their subscribers; otherwise nothing changes |
| `SharedSubs.SharedSubscriptionManager.Unsubscribe` | internal/subscription/shared.go:86-115 | removes the subscriber; the last one to leave closes the shared subscription and removes its key |
| `SharedSubs.SharedSubscriptionManager.Close` | internal/subscription/shared.go:118-130 | closes every shared subscription and empties the table |
| `SharedSubs.SharedSubscription.AddSubscriber` | internal/subscription/shared.go:223-227 | the subscriber is registered under its own ID |
| `SharedSubs.SharedSubscription.RemoveSubscriber` | internal/subscription/shared.go:230-234 | exactly that ID is gone |
| `SharedSubs.Subscriber.OnEvent` | internal/subscription/client.go:207-213 | a closed subscriber takes no event |
| `Sessions.ClientSession.Subscribe` | internal/subscription/client.go:58-113 | closed, limit and no-upstream refusals change nothing; otherwise the session holds the new ID for the key, with a deduplicated subscriber, and the shared table has it |
| `Sessions.ClientSession.Unsubscribe` | internal/subscription/client.go:116-138 | an ID the session holds leaves both the session and the shared table and its subscriber is closed; any other is an error without effect |
| `Sessions.ClientSession.Close` | internal/subscription/client.go:141-166 | closes once; all IDs of the session leave the shared table, in whatever order they are released, and every subscriber is closed |
| `Sessions.Manager.GetOrCreateSession` | internal/subscription/manager.go:43-63 | one session per connection: the existing one, or a new empty one |
| `Sessions.Manager.Subscribe` | internal/subscription/manager.go:89-96 | moves sessions and table by exactly the subscribe event of the bookkeeping model |
| `Sessions.Manager.Unsubscribe` | internal/subscription/manager.go:99-106 | moves them by exactly the unsubscribe event; no session means nothing happens |
| `Sessions.Manager.RemoveSession` | internal/subscription/manager.go:73-86 | moves them by exactly the remove event, and the session is closed |
| `Sessions.Manager.CloseAll` | internal/subscription/manager.go:109-122 | moves them by exactly the close-all event, and every session is closed |
| `Bookkeeping.AlwaysInv` | internal/subscription/manager.go:43-121 | over all runs whose accepted subscriptions have fresh (key, ID) pairs: an ID is in the table under a key exactly when a session, or the monitor, holds it for that key; no empty sets; no session beyond maxSubs; no pair held twice |
| `Bookkeeping.TableIsWhatIsHeld` | internal/subscription/shared.go:48-115 | the subscriber set under each key equals the IDs held for it, and the key exists exactly when that set is non-empty |
| `Bookkeeping.ClosingEverythingEmptiesTheTable` | internal/subscription/manager.go:109-122 | after any run, closing all sessions and stopping the monitor leaves no shared subscription |
| `Bookkeeping.SubscribeAccepted` | internal/subscription/client.go:58-113 | below its limit a client joins an existing share even while no upstream is up, and a new one if an upstream accepts; it holds the ID under the key afterwards, and the table has that member more and no other change |
| `Bookkeeping.SubscribeRefused` | internal/subscription/client.go:58-99 | at its limit, or where a new share is needed and no upstream accepts, a client gets an empty session at most |
| `Bookkeeping.UnsubscribeOutcome` | internal/subscription/client.go:116-140 | exactly that ID leaves its session, and it alone leaves its key; an unknown ID changes nothing |
| `Bookkeeping.RemoveOutcome` | internal/subscription/manager.go:73-86 | exactly what the session holds leaves the table with it |
| `Bookkeeping.CloseAllOutcome` | internal/subscription/manager.go:109-122 | exactly what the sessions hold leaves the table; the monitor stays |
| `Bookkeeping.MonitorOutcome` | internal/subscription/shared.go:578-587 | the monitor joins and leaves the heads' share under its own ID, and touches no session |
| `Bookkeeping.RunsSurviveIffFresh` | internal/subscription/client.go:323-325 | over whole runs: in every state table and sessions agree, and still do after whichever session leaves or the monitor stops, if and only if every accepted subscription had a fresh (key, ID) pair |
| `Bookkeeping.FreshIffSurvives` | internal/subscription/client.go:58-113 | the same for one step from any consistent state |
| `Bookkeeping.SharedPairLosesASubscriber` | internal/subscription/client.go:323-325 | whenever two sessions hold one ID for one key, the first to leave takes the other's subscription away |
| `Bookkeeping.DropDrop` | internal/subscription/client.go:158-163 | subscribers may leave one by one or together, in any order |
| `Bookkeeping.LeaveIsDrop` | internal/subscription/shared.go:92-103 | the manager's removal of one subscriber is the removal of one (key, ID) pair |
| `Bookkeeping.KeysIdentifySubscriptions` | internal/subscription/shared.go:138-144 | two requests whose parameters do not collide in the digest share a subscription exactly when type and parameters agree, with null counting as none |
| `Bookkeeping.HeadsAreShared` | internal/subscription/shared.go:138-144 | a client's newHeads subscription without parameters shares the monitor's |
| `Gate.WaitForMainBlock` | internal/subscription/client.go:255-289 | the polling loop is exactly the read-by-read specification: a forwarded block was seen at a main, or a completed scan saw every main unhealthy; a drop means closing; a main that keeps the block and stays healthy, or no main ever healthy, forwards |
| `Gate.Admit` | internal/subscription/client.go:207-233 | only newHeads events of fallbacks with a parseable block wait, and then exactly as specified; closed subscribers take nothing |
| `Gate.ForwardedBlockIsThere` | internal/subscription/client.go:255-289 | a forwarded fallback block is at some main upstream from then on, or a scan completed during the wait met every main unhealthy; with at most one main, or if no main recovered during the wait, there was then an instant at which none was healthy |
| `Gate.LaterLooksForward` | internal/subscription/client.go:269-289 | if some main has the block and stays healthy from some instant on, or the mains stay down from then on, the block is forwarded at the first tick after that at the latest, unless the session or the subscriber closes before |
| `Gate.HeldBack` | internal/subscription/client.go:255-289 | while some main stays healthy and no main has the block it is not forwarded: dropped exactly if something closes at a tick |
| `Gate.UpdateBlockMakesMonotone` | internal/upstream/types.go:94-107 | the blocks read off any run of competing compare-and-swap loops never decrease, which is what the gate relies on |
| `Gate.TightIffAtMostOneMain` | internal/subscription/client.go:255-289 | the claim that a forward means the block is at a main for ever after, or that no main was healthy at one instant of the wait, holds of every history exactly for pools with at most one main |
| `Gate.ScanHasAnInstant` | internal/upstream/pool.go:237-247 | a scan that met every main unhealthy did so at one instant if there is at most one main or none recovered during it |
| `Gate.TornWait` | internal/subscription/client.go:255-289 | for every pool of two or more mains and every block: a history in which some main is healthy at every instant, no main ever has the block, and the wait forwards it |
| `Gate.TurnsArise` | internal/upstream/health.go:80-109 | that history is one the health monitor produces under any settings, after the fallback delivered the block: failed polls and newHeads events of the mains |
| `CacheKeys.NormalizeDecidesSame` | internal/cache/methods.go:278-314 | two JSON values normalise equally exactly when they are structurally equal up to the case of string values; object key order is immaterial, object keys are exact |
| `CacheKeys.NormalizeIdempotent` | internal/cache/methods.go:278-314 | normalising twice is normalising once |
| `CacheKeys.CacheabilityDependsOnKey` | internal/cache/methods.go:93-246 | parameters with equal normal forms are cacheable together or not at all, for every method, so a key never mixes cacheable and uncacheable requests |
| `CacheKeys.BlockMethodsByName` | internal/cache/methods.go:117-199 | by name: six methods look for their block in position 0, seven in position 1, two in position 2; such a request is cacheable exactly when the parameter there exists and is null, text that is no capitalisation of one of the five tags, or an object whose blockNumber is absent, no text, or such text |
| `CacheKeys.RangeMethodsByName` | internal/cache/methods.go:202-246 | eth_getLogs and trace_filter are cacheable exactly when the first parameter is an object in which both bounds are present and neither is a capitalisation of one of the five tags |
| `CacheKeys.OtherMethodsByName` | internal/cache/methods.go:26-114 | twelve methods by name are cached whatever their parameters, any other method and any disabled one never |
| `CacheKeys.CacheableBlocks` | internal/cache/methods.go:117-199 | a block-number request is cacheable exactly when its block parameter is in place and is null, text that is no capitalisation of a dynamic tag, or an object whose blockNumber is absent, no text, or such text |
| `CacheKeys.NullBlockIsCached` | internal/cache/methods.go:181-199 | a null block parameter, an implicit latest, is accepted |
| `CacheKeys.CacheableRanges` | internal/cache/methods.go:202-246 | a block-range request is cacheable exactly when its first parameter is an object in which both bounds are present and neither is a capitalisation of a dynamic tag |
| `CacheKeys.NullRangeIsCached` | internal/cache/methods.go:221-243 | null bounds are accepted |
| `CacheKeys.OtherMethodsIgnoreParameters` | internal/cache/methods.go:93-114 | every other method is cached always or never, whatever its parameters |
| `CacheKeys.TaggedTraceBlockIsCached` | internal/cache/methods.go:40-40 | trace_block is cached even when its parameter is a dynamic tag |
| `CacheKeys.KeysIdentifyRequests` | internal/cache/methods.go:249-255 | for two cacheable methods whose parameters do not collide in the digest, keys are equal exactly when group, method and parameters up to string case are |
| `CacheKeys.KeysSplit` | internal/cache/methods.go:249-255 | with no assumption on collisions: keys are equal exactly when group, method and digest are, whatever the group name contains |
| `CacheKeys.MissingParamsAreEmpty` | internal/cache/methods.go:258-261 | a request without parameters has the key of one with an empty list |
| `CacheKeys.NormalizeValue` | internal/cache/methods.go:279-290 | the recursive loops compute the normal form |
| `CacheKeys.NormalizeMap` | internal/cache/methods.go:293-305 | visiting keys in any order gives the same normal form |
| `CacheKeys.NormalizeArray` | internal/cache/methods.go:308-314 | element by element, order kept |
| `ResponseCache.MemoryCache.Get` | internal/cache/memory.go:42-60 | the stored response if it has not expired; an expired entry is removed, and no later lookup can tell |
| `ResponseCache.MemoryCache.Set` | internal/cache/memory.go:63-72 | the value is found until its lifetime ends; other entries change only by the eviction of the least recently used one from a full table |
| `ResponseCache.MemoryCache.RemoveExpired` | internal/cache/memory.go:91-104 | the sweep drops exactly the entries whose lifetime has ended and keeps the recency order of the rest |
| `ResponseCache.SweepIsInvisible` | internal/cache/memory.go:91-104 | no lookup from then on can tell whether a sweep took place |
| `ResponseCache.AccountedSurvive` | internal/cache/memory.go:63-72 | after any series of writes the last one to each key is readable exactly if fewer other keys than the capacity were written after it, and until it expires |
| `ResponseCache.WriteStep` | internal/cache/memory.go:63-72 | one more write keeps the account of which earlier ones survive |
| `Handler.Handler.CachingIsTransparent` | internal/proxy/handler.go:109-208 | in every state any calls can lead to: if, among the recorded and the answered requests, those sharing a key may get the same answer, every answer given is one a proxy without a cache could have given |
| `Handler.SharedKeyMisleads` | internal/proxy/handler.go:111-125 | the condition is needed: two requests sharing a key but not their answers make the handler give an answer no upstream would |
| `Handler.CaseBlindAnswersAreKeyDetermined` | internal/cache/methods.go:249-255 | the condition follows if upstreams ignore caller ID and string case and the digests of the requests that occurred do not collide |
| `Handler.Handler.ExecuteWithCache` | internal/proxy/handler.go:109-147 | a hit is the stored response under the caller's ID without touching cache or log; a miss is the upstream's answer, or an error with code -32603 under the caller's ID; a cacheable success is then readable for its lifetime; every entry stays backed by a recorded success for its key |
| `Handler.Handler.ExecuteBatchWithCache` | internal/proxy/handler.go:150-208 | slot by slot the merge of hits and replies, every answer recorded as given; after a failure every slot is filled under its own ID; one reply too many panics; afterwards the last cacheable success for each key is readable exactly if fewer keys than fit were written after it, until it expires; provenance is kept |
| `Handler.Handler.Gather` | internal/proxy/handler.go:156-176 | the indices and requests of the misses, with every hit in its slot |
| `Handler.Handler.Scatter` | internal/proxy/handler.go:188-204 | each reply goes to the slot of its miss and is kept; it runs out of range exactly when there are more replies than misses |
| `Handler.Handler.FillErrors` | internal/proxy/handler.go:181-187 | an error under its own ID for each miss, nothing else touched |
| `Handler.Handler.Keep` | internal/proxy/handler.go:133-144 | a cacheable success becomes readable for its lifetime, anything else leaves the cache alone |
| `Handler.Handler.Sweep` | internal/cache/memory.go:81-104 | a sweep between requests keeps provenance and is invisible |
| `Handler.MissesComplementHits` | internal/proxy/handler.go:151-176 | the miss indices increase strictly and are exactly the complement of the hits |
| `Handler.RankInverts` | internal/proxy/handler.go:188-191 | slot i holds the reply at its rank among the misses |
| `Handler.NoSlotIsNil` | internal/proxy/handler.go:188-208 | no slot stays nil exactly when there is a reply for every miss |
| `Handler.FailedSlotsKeepTheirIDs` | internal/proxy/handler.go:181-187 | after an upstream failure a missed slot holds an error with its own request's ID, no result and code -32603 |
| `Handler.HitsAndMisses` | internal/proxy/handler.go:156-176 | every hit is answered under the caller's own ID; the requests sent on are the others, in order |
| `Handler.FailureAnswers` | internal/proxy/handler.go:181-187 | after a failed batch every slot is filled under its own request's ID, the missed ones with an error of code -32603 |
| `Handler.ReplyAnswers` | internal/proxy/handler.go:188-191 | otherwise the k-th miss holds the k-th element of what the upstream returned, or nothing if there are too few |
| `Handler.BatchSuccessIsCached` | internal/proxy/handler.go:193-204 | a cacheable success of a batch is found under its key afterwards until it expires, unless a later reply has the same key or more replies follow than fit |
| `Handler.TooManyReplies` | internal/proxy/handler.go:188-191 | a batch has a reply too many exactly when the upstreams return more responses than requests were sent on |
| `Handler.OwnIdsIffRepliesInOrder` | internal/proxy/handler.go:188-191 | every filled slot carries its own request's ID exactly when the replies carry the IDs of the missed requests in order |
| `Handler.SwappedRepliesAreMisfiled` | internal/proxy/handler.go:188-191 | two replies in the other order, which the standard allows, go to each other's caller |
| `Handler.BatchIsJustified` | internal/proxy/handler.go:150-208 | every answered slot is an own-key success not older than the TTL, a reply recorded for this very request, or an error under its own ID |
| `WebSocket.OneOutcomePerChannel` | internal/upstream/upstream.go:308-357 | over all interleavings of send, reply, cancel and disconnect each channel gets at most one of one response and one close |
| `WebSocket.DeliveryIsSafe` | internal/upstream/upstream.go:407-427 | a hand-over meets an open, empty channel, so it never blocks and never follows a close; no channel is closed twice |
| `WebSocket.RepliesAreCorrelated` | internal/upstream/upstream.go:341-357 | what a caller gets arrived as a message whose number cut down to an integer is its own request ID, and carries the ID the caller chose |
| `WebSocket.NobodyIsStranded` | internal/upstream/upstream.go:308-357 | over all interleavings a request that still waits is in the table, or its response is being handed over, or its channel has a response or a close to receive |
| `WebSocket.ReplyReachesCaller` | internal/upstream/upstream.go:341-427 | a reply to a request in the table can be handed over and received, and then is the caller's result under the caller's ID |
| `WebSocket.AnswersMeans` | internal/upstream/upstream.go:411-416 | a response answers request r exactly when its ID is a number from r up to but excluding r + 1 |
| `WebSocket.StrayMessageIsIgnored` | internal/upstream/upstream.go:407-427 | a message whose ID belongs to no request in the table changes nothing |
| `WebSocket.SendEnrolls` | internal/upstream/upstream.go:316-326 | a request gets the next ID, unused so far, an empty open channel and a place in the table; others keep theirs |
| `WebSocket.LeavingWithdraws` | internal/upstream/upstream.go:335-356 | a cancelled or unsendable request leaves the table, and a reply that comes later is ignored |
| `WebSocket.DisconnectReleases` | internal/upstream/upstream.go:388-404 | a disconnect closes exactly the channels of the requests in the table, empties it, and lets each of them see the close |
| `WebSocket.IdsOnlyGrow` | internal/upstream/upstream.go:316-326 | request IDs are never reused and a request keeps its original ID |
| `WebSocket.Upstream.BeginExecute` | internal/upstream/upstream.go:308-340 | one fresh ID, one open channel, one table entry; an error without connection; a request that cannot be marshalled is withdrawn |
| `WebSocket.Upstream.HandleMessage` | internal/upstream/upstream.go:407-427 | a reply whose ID is in the table takes its entry out; anything else is ignored |
| `WebSocket.Upstream.Disconnect` | internal/upstream/upstream.go:388-404 | every pending channel is closed exactly once and the table is emptied |

## Left out

- HTTP and WebSocket dialing, reading, writing, deadlines, server start and stop, logging: input and output only.
- JSON text parsing and printing, SHA-256, strconv: library code; cached bytes are taken to parse back to what was stored.
- JSON numbers are reals: float64 rounding can give two large numbers one cache key.
- Lower-casing beyond ASCII in `strings.ToLower`: texts are compared up to ASCII case.
- Go integer widths: indexes, weights, blocks and times are unbounded, no operation of the model comes near a wrap-around except FNV-1a, which wraps explicitly.
- Parameters that are not valid JSON: a request body that parsed as JSON cannot contain them.
- Internals of the LRU library: `Lru` states its contract and implements it.
- The race between the two lock sections of a cache `Get` and a concurrent `Set` of the same key: it can lose a fresh entry, not produce a wrong one; requests are handled one after another here.
- Tearing of one cache answer by concurrent requests: handlers are atomic in `Handler`, upstream answers are arbitrary.
- `NoopCache` and `SetDisabledMethods`: the disabled set is a constant of the handler's policy.
- Nil elements in an upstream's batch response, which would be dereferenced.
- Round-robin `RoundRobin`, `Router`, path extraction, getters, `formatStats`, `MethodStats`, `usedFallback` logging: easier members only.
- `subscriptionCount`: it is incremented on reconnects and can be decremented twice, so it is not conserved; statistics only.
- `internal/ws/client.go`: its cache and batch logic repeats the handler.
- `ClientSession.Subscribe` racing `Close` or another `Subscribe`: limit check and insert use separate lock sections; the bookkeeping theorems are about atomic operations.
- Operations after the shared manager was closed: it empties the table under sessions that still hold IDs.
- Several groups: each has a shared manager of its own, and a session stays with one; `Sessions` models one group.
- Concurrent readers in `SharedSubs`: one reading loop at a time hands out its events; interleavings are in `ConcurrentDedup`.
- SharedSubs.Subscriber.OnEvent: does not model the bounded send channel, which drops events when full, nor the gate, which is in `Gate`.
- Liveness of `waitForMainBlock`: a main within the threshold but behind can stay healthy while its reader is blocked; forwarding is stated for a main that has the block and stays healthy, or mains that stay down.
- Progress after `DisconnectWS`: a closed channel yields a nil response that is dereferenced; the model ends with the close outcome.
- WebSocket replies whose numeric ID is not an integer below 2^53: the conversion is truncation of a real here.
- Shutdown of the health monitor and of its timers, and the rotation of health statistics.
- Timer durations: pending lag checks fire in any order at any time.
- Eviction in `ConcurrentDedup`: the cache there is large enough for the run; the exact window is proved for serialised calls in `Dedup`.
