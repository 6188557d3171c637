# Proofs about the CryptoSentinel agent

A Dafny 4.11 model of the delivery and resilience layer of the Teneo agent SDK (circuit breaker,
retry queue, client, health counters, rate limiter, supervisor, reconnection), of its agent-name
rules, and of three pieces of the CryptoSentinel agent that uses it (price alerts, trend verdicts,
number printers). Clocks, send results, price look-ups and scheduling choices are arguments or the
schedule's choice, so each theorem holds for every value of them.

Code that updates fields is modelled as classes whose methods make the same updates and are proved
against functions on the state; the theorems over runs are lemmas about those functions.

| file | what it models |
|---|---|
| Ascii.dfy | ASCII characters and the library's text functions |
| CircuitBreaker.dfy | the breaker's fields and lock-held regions, and histories in which its two entry points are single steps |
| BreakerInterleaving.dfy | the same breaker with any number of goroutines inside `CanAttempt` and `RecordResult` at once, one step per atomic load or lock-held region |
| Backoff.dfy | the retry queue's and the supervisor's capped exponential delays |
| RetryQueue.dfy | the queue of failed messages, its passes and how it drains |
| HealthMonitor.dfy | message counters and the latency window |
| Runs.dfy | runs of a state machine, shared by the modules with interleavings |
| Delivery.dfy | `SendMessage`, retries and `Clear` interleaved over queue and counters, for any breaker |
| ClientRuns.dfy | the same with the program's own breaker, one step per atomic load or lock-held region |
| Client.dfy | `SendMessage` on the live objects, and the reconnection chain |
| ReconnectionChains.dfy | reconnection chains that overlap |
| RateLimiter.dfy | the sliding-window limiter |
| Supervisor.dfy | one goroutine's restart loop, running flags and the wait group |
| NamePattern.dfy, NamingRules.dfy | the regexp fragment in use, the rule records, and the pattern text compiled from rules |
| AgentNaming.dfy, NameErrors.dfy | validation of names, and which error or warning is given when |
| NameNormalization.dfy, NameText.dfy | when normalisation gives a valid name or a fixed point, and what it does with the text |
| NameSuggestions.dfy | generation and suggestion of names |
| Alerts.dfy | the alert slice, its snapshot and the checker on the heap, and their interleavings |
| Trend.dfy | trailing averages and the verdict |
| Format.dfy | `IntComma` and `F` |

## Assumptions

- In CircuitBreaker.dfy (module `BreakerHistory`) `CanAttempt` and `RecordResult` are each one step. The source loads the
  state before it takes the lock. BreakerInterleaving.dfy drops the assumption: "never wedges" survives, and for the other
  three results it says exactly when they do not (see below). The histories are among its schedules
  (`HistoriesAreSchedules`). What is proved of the whole client, in Delivery.dfy and ClientRuns.dfy, does not assume it.
- One lock-held region, or one atomic load or store, is one step elsewhere. `startGoroutine`'s store of the flag, its
  count and its spawn are one step; so is a failed reconnection's test, store and spawn. Reconnection stays enabled
  while its chains run.
- `float64` is exact real arithmetic. The conversion of an out-of-range value to `int64` is left to the platform, as Go
  leaves it: it is a parameter (`overflow`). Counters are unbounded integers; the latency sum and the reconnection delay
  wrap at 64 bits.
- Names are ASCII.

## Where the code does not do what it seems to promise

- circuit_breaker.go:57 says one request is allowed in half-open state. Two are: the call that leaves Open is not counted
  (`EpisodeBound`, `EpisodeBoundReached`). When attempts race, every goroutine that found the timeout passed is admitted
  as well, however many there are: an episode admits exactly one call, one for each slot taken and one for each late entry
  (`EpisodeAdmissionsExactly`, `RacingAttemptsPassTheEpisodeBound`).
- The breaker is meant to be closed exactly below its failure threshold. A step from such a state
  breaks it exactly when it is one of four that act on a stale load, three in `RecordResult` and one in `CanAttempt`, and
  a schedule keeps it throughout exactly when it takes none of them (`StepKeepsConsistentExactly`,
  `ConsistentThroughoutExactly`; examples: `StaleLoadTripsEarly`, `StaleEntryHalfOpensClosed`).
- An open breaker is meant to wait out its timeout. A step takes it out of Open early exactly when it is one of three: an
  entry, and a failure still within the timeout was recorded since that goroutine's check; or a Reset, or a half-open
  success recorded late, and a failure still within the timeout was recorded since the last Reset
  (`LeavesOpenEarlyExactly`; examples: `StaleEntryLeavesOpenEarly`, `LateSuccessClosesEarly`).
- Reconnection attempts can pass their maximum when chains overlap (`TwoChainsPassTheMaximum`). A run keeps within it
  exactly when no call counts itself at the maximum (`NeverPassesExactly`); the calls between their check and their count
  can take the counter past it exactly when, with them, it is past already (`PendingCanPassExactly`); and they stay
  within it exactly while no check finds an attempt left that a pending call will take (`StepKeepsRoomExactly`,
  `RoomThroughoutExactly`). The excess is less than the most calls pending at once (`OverlapBoundsAttempts`).
- Two racing starts of one supervised goroutine make two runners behind one flag; without such a race flags and runners
  match, and only then (`FlagsMatchRunners`, `RacingStartsMakeTwoRunners`).
- The strict naming rules give the invalid name `-agent` for a name with nothing to keep (`StrictNothingKept`), and
  truncation can cut the required suffix off: a led text of 25 to 30 characters without it always gives an invalid name.
  `StrictNormalization` has the exact condition on the text before the suffix is added. Under the default rules a
  name with nothing to keep becomes `111`, which the pattern refuses and normalising changes again (`NothingKept`,
  `OnesAreNotANormalForm`, `DefaultNormalization`).
- `IntComma(-123)` is `-,123`: the sign is grouped like a digit (`LoneMinusExactly`).
- The queue's delay is the intended one exactly when the unclamped product fits `int64` or the platform's out-of-range
  value lies at or above the cap (`QueueDelayExactly`). The shipped policy, which the client hard-wires, never gets there
  (`RetryQueues.ShippedDelays`); a policy with the same delays and maxRetries above 35 does, and on a platform that gives the least
  `int64` its next retry is then due in the past (`QueueDelayCanGoNegative`).
- The average latency is the true one exactly when the window's sum fits `int64` (`AverageExactly`).
- An alert fires at most once in every run exactly because no more than one checker is started (`FiresOnceExactly`).
- `F` writes `-0` for negative numbers that round to nothing (`MinusZeroExactly`).

## Model

| member | source | states |
|---|---|---|
| CircuitBreaking.CircuitBreaker.constructor | teneo-agent-sdk/pkg/network/circuit_breaker.go:53-60 | a new breaker is closed with every counter zero and allows one half-open request |
| CircuitBreaking.CircuitBreaker.CanAttempt | teneo-agent-sdk/pkg/network/circuit_breaker.go:81-112 | verdict and new fields in each of the three states, including the move to HalfOpen that does not count its own call |
| CircuitBreaking.CircuitBreaker.RecordResult | teneo-agent-sdk/pkg/network/circuit_breaker.go:115-123 | a result is recorded under the state loaded first |
| CircuitBreaking.CircuitBreaker.RecordFailure | teneo-agent-sdk/pkg/network/circuit_breaker.go:126-144 | new fields after a failure, for every loaded state and every actual one |
| CircuitBreaking.CircuitBreaker.RecordSuccess | teneo-agent-sdk/pkg/network/circuit_breaker.go:147-168 | new fields after a success, for every loaded state and every actual one |
| CircuitBreaking.CircuitBreaker.TransitionToLocked | teneo-agent-sdk/pkg/network/circuit_breaker.go:178-197 | entering HalfOpen, and only that, zeroes the half-open counters; a move to the current state does nothing |
| CircuitBreaking.CircuitBreaker.Reset | teneo-agent-sdk/pkg/network/circuit_breaker.go:205-214 | every field returns to its initial value |
| BreakerHistory.ReachableInvariant | teneo-agent-sdk/pkg/network/circuit_breaker.go:81-214 | after every history with any number of outstanding calls: closed iff failures < max(1, maxFailures); failures is the current streak; in HalfOpen the episode has admitted 1 + halfOpenAttempts calls and outstanding + successes cover them |
| BreakerHistory.TripsExactly | teneo-agent-sdk/pkg/network/circuit_breaker.go:126-168 | a closed breaker opens on an event iff it is the maxFailures-th consecutive recorded failure |
| BreakerHistory.AdmitsExactly | teneo-agent-sdk/pkg/network/circuit_breaker.go:81-112 | who is admitted: everyone while closed, after the timeout while open, and while half-open until the episode has admitted more than halfOpenRequests |
| BreakerHistory.HalfOpenIsLeftExactly | teneo-agent-sdk/pkg/network/circuit_breaker.go:126-168 | half-open closes on an event iff it is a Reset or the halfOpenRequests-th success of the episode, and opens iff it is a failure |
| BreakerHistory.OpenIsLeftOnlyBy | teneo-agent-sdk/pkg/network/circuit_breaker.go:81-214 | open closes on a Reset only and becomes half-open on an admitted attempt only |
| BreakerHistory.Recovers | teneo-agent-sdk/pkg/network/circuit_breaker.go:147-168 | from open, once the timeout has passed, halfOpenRequests succeeding calls are all admitted and close the breaker with no failure counted, whatever failed before |
| BreakerHistory.NeverWedges | teneo-agent-sdk/pkg/network/circuit_breaker.go:81-112 | with no result outstanding the next attempt is admitted, from Open once the timeout has passed |
| BreakerHistory.EpisodeBound | teneo-agent-sdk/pkg/network/circuit_breaker.go:81-112 | a half-open episode admits at most halfOpenRequests + 1 calls, and exceeds halfOpenRequests exactly when all slots were taken besides the opening call |
| BreakerHistory.EpisodeBoundReached | teneo-agent-sdk/pkg/network/circuit_breaker.go:57 | the shipped breaker does admit two calls in one half-open episode |
| BreakerHistory.LastFailTimeIsLatest | teneo-agent-sdk/pkg/network/circuit_breaker.go:130-131 | lastFailTime is the time of the latest failure since the last Reset |
| BreakerHistory.LeavesOpenExactly | teneo-agent-sdk/pkg/network/circuit_breaker.go:88-97 | when CanAttempt is one step, an attempt leaves Open iff more than resetTimeout has passed since every failure since the last Reset; otherwise it is refused and changes nothing |
| BreakerInterleaving.EveryScheduleKeepsInvariant | teneo-agent-sdk/pkg/network/circuit_breaker.go:81-214 | what every interleaving of atomic loads and lock-held regions keeps: the results still due in the current episode cover its admissions |
| BreakerInterleaving.SoloIsAttempted | teneo-agent-sdk/pkg/network/circuit_breaker.go:81-112 | the separate steps of CanAttempt, run alone, are the one-step CanAttempt |
| BreakerInterleaving.HistoriesAreSchedules | teneo-agent-sdk/pkg/network/circuit_breaker.go:70-123 | every history of uninterrupted attempts and results is run by a schedule, with the same breaker and as many calls running as outstanding |
| BreakerInterleaving.NeverWedges | teneo-agent-sdk/pkg/network/circuit_breaker.go:81-168 | after any interleaving, stale loads included, if no call of the current half-open episode owes a result, the next goroutine to try is admitted |
| BreakerInterleaving.EpisodeAdmissionsExactly | teneo-agent-sdk/pkg/network/circuit_breaker.go:81-112 | after any interleaving a half-open episode has admitted one call, one per slot taken and one per goroutine that entered late; halfOpenRequests + 1 is passed exactly when more entered late than slots are left |
| BreakerInterleaving.RacingAttemptsPassTheEpisodeBound | teneo-agent-sdk/pkg/network/circuit_breaker.go:88-96 | for every configuration and every n, some schedule admits n goroutines to one episode: one opens it, n - 1 enter late, none takes a slot |
| BreakerInterleaving.StepKeepsConsistentExactly | teneo-agent-sdk/pkg/network/circuit_breaker.go:81-197 | a step keeps closed-iff-below-threshold exactly when it is none of four steps on a stale load |
| BreakerInterleaving.ConsistentThroughoutExactly | teneo-agent-sdk/pkg/network/circuit_breaker.go:81-197 | a whole schedule keeps it in every state exactly when it takes none of those steps |
| BreakerInterleaving.StaleLoadTripsEarly | teneo-agent-sdk/pkg/network/circuit_breaker.go:115-144 | a schedule after which a breaker with maxFailures 2 is open after one failure |
| BreakerInterleaving.StaleEntryHalfOpensClosed | teneo-agent-sdk/pkg/network/circuit_breaker.go:88-96 | a schedule with only fresh results that leaves a closed breaker half-open without a failure |
| BreakerInterleaving.OpenIsLeftExactly | teneo-agent-sdk/pkg/network/circuit_breaker.go:81-214 | the only steps that take the breaker out of Open: an entry, a Reset, or a half-open success recorded late |
| BreakerInterleaving.HalfOpenIsLeftExactly | teneo-agent-sdk/pkg/network/circuit_breaker.go:115-168 | the only steps that take the breaker out of HalfOpen, and to which state |
| BreakerInterleaving.ClosedIsLeftExactly | teneo-agent-sdk/pkg/network/circuit_breaker.go:81-168 | the only steps that take the breaker out of Closed, and to which state |
| BreakerInterleaving.SuccessesAreCounted | teneo-agent-sdk/pkg/network/circuit_breaker.go:147-160 | after any interleaving a half-open breaker counts exactly the successes of its episode |
| BreakerInterleaving.EntersEarlyExactly | teneo-agent-sdk/pkg/network/circuit_breaker.go:88-96 | after any interleaving, an entry leaves Open before the timeout exactly when a failure still within it was recorded between that goroutine's check and its entry |
| BreakerInterleaving.LeavesOpenEarlyExactly | teneo-agent-sdk/pkg/network/circuit_breaker.go:81-214 | after any interleaving, a step leaves Open before the timeout exactly when it is such an entry, or a Reset or a late half-open success with a failure since the last Reset still within the timeout |
| BreakerInterleaving.LateSuccessClosesEarly | teneo-agent-sdk/pkg/network/circuit_breaker.go:152-160 | a schedule in which a late half-open success closes the breaker at the time of the failure that re-opened it |
| BreakerInterleaving.StaleEntryLeavesOpenEarly | teneo-agent-sdk/pkg/network/circuit_breaker.go:88-96 | a schedule that leaves Open at the time of the failure that opened it |
| Backoff.QueueBackoff | teneo-agent-sdk/pkg/network/retry_queue.go:248-260 | the queue's multiply-then-clamp loop computes QueueDelay, never above the cap |
| Backoff.SupervisorBackoff | teneo-agent-sdk/pkg/network/supervisor.go:235-248 | the supervisor's truncate-clamp-and-break loop computes SupervisorDelay |
| Backoff.ProductIsPower | teneo-agent-sdk/pkg/network/retry_queue.go:248-253 | n rounds of the loop multiply by the n-th power of the factor |
| Backoff.StartAboveTheCap | teneo-agent-sdk/pkg/network/supervisor.go:235-248 | a start above the cap is clamped by the queue at once, and waited once, unclamped, by the supervisor |
| Backoff.QueueDelayExactly | teneo-agent-sdk/pkg/network/retry_queue.go:248-260 | the queue's delay is min(cap, start * factor^n) iff the product fits int64 or the out-of-range value is at least the cap |
| Backoff.QueueDelayCanGoNegative | teneo-agent-sdk/pkg/network/retry_queue.go:248-260 | with the shipped delays but more than 35 retries, a negative delay on a platform that converts to the least int64 |
| Backoff.SupervisorDelayBounds | teneo-agent-sdk/pkg/network/supervisor.go:235-248 | for any real factor >= 1 the supervisor's delay lies between the start and min(cap, start * factor^n), and equals it for whole factors |
| Backoff.SupervisorDelayExactly | teneo-agent-sdk/pkg/network/supervisor.go:235-248 | whole factor, platform value at or above the cap or not positive: the delay is min(cap, start * factor^n) iff the former or no round before the cap leaves int64 |
| Backoff.SupervisorDelayNeverFalls | teneo-agent-sdk/pkg/network/supervisor.go:235-248 | the supervisor's delay never falls from one restart to the next |
| Backoff.BackoffsAgree | teneo-agent-sdk/pkg/network/retry_queue.go:248-260 | both delays stay in start..cap, never fall, the supervisor's is never above the queue's, and they are equal for whole factors |
| Backoff.BackoffsAgreeExactly | teneo-agent-sdk/pkg/network/retry_queue.go:248-260 | for whole factors that keep the cap within int64 the two delays are equal iff the queue's product fits or its out-of-range value is at least the cap |
| RetryQueues.ShippedDelays | teneo-agent-sdk/pkg/network/retry_queue.go:23-35 | under the shipped policy every delay is the intended one, one or two seconds, on any platform |
| RetryQueues.MessageRetryQueue.Enqueue | teneo-agent-sdk/pkg/network/retry_queue.go:120-147 | a retriable message joins the end due after initialDelay, another is counted dropped |
| RetryQueues.MessageRetryQueue.PickReady | teneo-agent-sdk/pkg/network/retry_queue.go:168-188 | the due entries leave in order, the others stay in order, and the size metric follows |
| RetryQueues.MessageRetryQueue.RetryMessage | teneo-agent-sdk/pkg/network/retry_queue.go:197-245 | one retry: counted delivered, counted dropped at the limit, or re-queued with one more retry and its backoff |
| RetryQueues.MessageRetryQueue.ProcessReadyMessages | teneo-agent-sdk/pkg/network/retry_queue.go:168-194 | a whole pass over shared message objects is the pass on values |
| RetryQueues.MessageRetryQueue.Clear | teneo-agent-sdk/pkg/network/retry_queue.go:298-311 | every queued message is counted dropped |
| RetryQueues.SplitKeeps | teneo-agent-sdk/pkg/network/retry_queue.go:175-182 | the split by due time loses no entry and no retry budget |
| RetryQueues.ReadyInOrder | teneo-agent-sdk/pkg/network/retry_queue.go:175-182 | the entries picked are all the due ones, in the queue's order |
| RetryQueues.WaitingInOrder | teneo-agent-sdk/pkg/network/retry_queue.go:175-182 | the entries left are all the others, in the queue's order |
| RetryQueues.EnqueuedIsDueExactly | teneo-agent-sdk/pkg/network/retry_queue.go:120-147 | a pass picks a newly queued message iff more than initialDelay has passed since; otherwise it waits at the end |
| RetryQueues.RequeuedIsDueExactly | teneo-agent-sdk/pkg/network/retry_queue.go:236-260 | a pass picks a re-queued message iff more than min(maxDelay, initialDelay * factor^(retry - 1)) has passed since |
| RetryQueues.DelayIsPromised | teneo-agent-sdk/pkg/network/retry_queue.go:248-260 | the delay of a retry is that one iff the product fits int64 or the out-of-range value is at least the cap |
| RetryQueues.PassSendsBackInOrder | teneo-agent-sdk/pkg/network/retry_queue.go:168-245 | after a pass the queue holds the entries not due and then the due ones that failed with retries left, each side in its old order |
| RetryQueues.FilledQueueDrains | teneo-agent-sdk/pkg/network/retry_queue.go:120-260 | a queue filled by any Enqueues is emptied by max(1, maxRetries) spaced passes, the first more than initialDelay after the last Enqueue |
| RetryQueues.SplitByDueTime | teneo-agent-sdk/pkg/network/retry_queue.go:175-182 | each entry goes, unchanged, to the side its due time says |
| RetryQueues.PassKeeps | teneo-agent-sdk/pkg/network/retry_queue.go:168-245 | any pass: delivered + dropped + queued is unchanged, no entry outlives its budget, and retries made are paid from the queue's budget |
| RetryQueues.QueueDrains | teneo-agent-sdk/pkg/network/retry_queue.go:168-260 | max(1, maxRetries) passes, each more than maxDelay after the one before, empty the queue, and every entry ends delivered or dropped |
| RetryQueues.FewerPassesDoNotDrain | teneo-agent-sdk/pkg/network/retry_queue.go:196-245 | while sends fail, fewer passes than that remove nothing |
| RetryQueues.RetriesWithinBudget | teneo-agent-sdk/pkg/network/retry_queue.go:168-245 | any number of passes at any times make at most the retries the queue's budget allowed |
| HealthMonitoring.HealthMonitor.RecordMessageSent | teneo-agent-sdk/pkg/network/health_monitor.go:203-210 | total and sent go up by one and the time is noted, nothing else moves |
| HealthMonitoring.HealthMonitor.RecordMessageFailed | teneo-agent-sdk/pkg/network/health_monitor.go:223-229 | failed and consecutive errors go up by one, nothing else moves |
| HealthMonitoring.HealthMonitor.RecordLatency | teneo-agent-sdk/pkg/network/health_monitor.go:272-296 | the window is exactly the last maxLatencySamples latencies ever recorded, and the stored average is theirs |
| HealthMonitoring.LastMeans | teneo-agent-sdk/pkg/network/health_monitor.go:277-282 | the window is as long as the history or maxLatencySamples and holds its last elements in order |
| HealthMonitoring.WrapMeans | teneo-agent-sdk/pkg/network/health_monitor.go:284-288 | the wrapped sum is the int64 that differs from the sum by a multiple of 2^64 |
| HealthMonitoring.AverageWithinWindow | teneo-agent-sdk/pkg/network/health_monitor.go:284-289 | the average of non-negative latencies whose sum fits int64 lies between the window's extremes |
| HealthMonitoring.AverageExactly | teneo-agent-sdk/pkg/network/health_monitor.go:284-289 | the stored average is the true one iff the window's sum fits int64 |
| Delivery.OnePlaceKept | teneo-agent-sdk/pkg/network/retry_queue.go:120-245 | every step keeps each enqueued message in exactly one of queue, retry, delivered, dropped |
| Delivery.HandedOnceKept | teneo-agent-sdk/pkg/network/client.go:202-233 | every step keeps the channel free of repeats and holding exactly the messages handed over |
| Delivery.StepKeepsInvariant | teneo-agent-sdk/pkg/network/client.go:202-233 | every lock-held region and send keeps places, counters, channel and tries consistent |
| Delivery.Conservation | teneo-agent-sdk/pkg/network/client.go:202-233 | after any interleaving: failed = delivered by retry + dropped + queued + in retry; sent = direct + delivered by retry; size metric = queue length; retries = successes + failures + re-queues, with the calls between two regions accounted; the total is the sent count and the consecutive errors the failed count |
| Delivery.AtMostOnce | teneo-agent-sdk/pkg/network/client.go:202-233 | a message enters the channel at most once, is tried at most 1 + max(1, maxRetries) times, and once handed over is never queued or dropped; a refused one is never tried |
| Delivery.AtRestEverythingIsSettled | teneo-agent-sdk/pkg/network/retry_queue.go:196-245 | at rest every admitted message was either put in the channel exactly once or dropped, never both, and the counters say how many of each |
| ClientRuns.SettlesWhenReady | teneo-agent-sdk/pkg/network/circuit_breaker.go:70-78 | whenever the breaker's step can be taken, what it settles for its call can be: the composition excludes no interleaving |
| ClientRuns.RunsProject | teneo-agent-sdk/pkg/network/circuit_breaker.go:70-78 | every interleaving of the client is a schedule of the breaker's own steps and one of the delivery steps, with each call standing at matching points in both |
| ClientRuns.ClientDelivers | teneo-agent-sdk/pkg/network/client.go:202-233 | conservation, one place per message, at most one hand-over, and at rest everything settled, after any interleaving with stale loads included |
| ClientRuns.NothingUnderWayNothingDue | teneo-agent-sdk/pkg/network/client.go:202-213 | when every SendMessage has returned, no call owes the breaker a result |
| ClientRuns.ClientNeverWedges | teneo-agent-sdk/pkg/network/client.go:202-213 | after any interleaving, if no call of the current half-open episode owes a result, the next SendMessage is admitted, whatever retries have done |
| Client.NetworkClient.constructor | teneo-agent-sdk/pkg/network/client.go:67-105 | a new client has a 3-failure 30-second breaker, the default retry policy and empty counters |
| Client.NetworkClient.SendMessageDirect | teneo-agent-sdk/pkg/network/client.go:216-233 | the message is handed over and counted exactly when the client runs and the channel takes it; otherwise which error |
| Client.NetworkClient.SendMessage | teneo-agent-sdk/pkg/network/client.go:202-213 | refused without effect, or sent and counted, or queued and counted failed, with the result recorded in the breaker |
| Client.SentAloneIsSendMessage | teneo-agent-sdk/pkg/network/client.go:202-213 | the steps of the interleaved model, run alone, do what SendMessage does |
| Client.RetriedAloneIsRetried | teneo-agent-sdk/pkg/network/retry_queue.go:197-245 | the steps of one retry, run alone, do what retryMessage does and leave the breaker and every call alone |
| Client.AttemptReconnection | teneo-agent-sdk/pkg/network/client.go:386-424 | a chain dials at most the attempts left, stops at the first success, resets or exhausts the counter, and sleeps the sum of its backoffs |
| Client.SleptClosedForm | teneo-agent-sdk/pkg/network/client.go:516-522 | after n dials from zero: 5n(n+1)/2 seconds for n <= 12 and 390 + 60(n - 12) beyond |
| ReconnectionChains.OverlapBoundsAttempts | teneo-agent-sdk/pkg/network/client.go:386-424 | for any overlapping chains the counter is the dials since the last success and passes maxAttempts by less than the calls ever pending at once, so never without overlap |
| ReconnectionChains.FlagIsDownAtRest | teneo-agent-sdk/pkg/network/client.go:386-424 | with no call under way the flag is down, so the next failure can start a chain |
| ReconnectionChains.GivesUpOnlyAtTheMaximum | teneo-agent-sdk/pkg/network/client.go:386-424 | until a dial succeeds some call is still trying or the maximum has been reached |
| ReconnectionChains.StepKeepsRoomExactly | teneo-agent-sdk/pkg/network/client.go:390-400 | a step keeps the counter plus the pending calls within maxAttempts iff it is no check that finds an attempt left which a pending call will take |
| ReconnectionChains.RoomThroughoutExactly | teneo-agent-sdk/pkg/network/client.go:386-424 | a whole run keeps them so iff it has no such check |
| ReconnectionChains.PendingCanPassExactly | teneo-agent-sdk/pkg/network/client.go:390-400 | the pending calls can take the counter past maxAttempts by counting iff with them it is past already |
| ReconnectionChains.NeverPassesExactly | teneo-agent-sdk/pkg/network/client.go:386-424 | a whole run keeps the counter within maxAttempts iff no count of it finds the counter there |
| ReconnectionChains.RoomKeepsTheMaximum | teneo-agent-sdk/pkg/network/client.go:386-424 | a run without such a check never passes maxAttempts |
| ReconnectionChains.TwoChainsPassTheMaximum | teneo-agent-sdk/pkg/network/client.go:409-417 | two overlapping chains make three attempts where two are allowed |
| RateLimiting.TaskCoordinator.CheckRateLimit | teneo-agent-sdk/pkg/network/coordinator.go:102-131 | verdict and pruned list of one check |
| RateLimiting.TaskCoordinator.SetRateLimit | teneo-agent-sdk/pkg/network/coordinator.go:93-98 | only the limit changes |
| RateLimiting.HistoryInOrder | teneo-agent-sdk/pkg/network/coordinator.go:128-130 | acceptances are recorded in clock order |
| RateLimiting.PrunedListRefinesHistory | teneo-agent-sdk/pkg/network/coordinator.go:114-121 | for any later reading of the clock the pruned list and the full history agree on the last minute |
| RateLimiting.PrunedListIsLastMinute | teneo-agent-sdk/pkg/network/coordinator.go:114-130 | after a metered check the stored list is exactly the history of the last minute |
| RateLimiting.RefusedExactly | teneo-agent-sdk/pkg/network/coordinator.go:107-126 | a request is refused iff a limit is set and the full history of the last minute already holds it |
| RateLimiting.RefusedByCount | teneo-agent-sdk/pkg/network/coordinator.go:107-126 | the same, counting the acceptances of the last 60 seconds one by one |
| RateLimiting.AfterTimeInOrder | teneo-agent-sdk/pkg/network/coordinator.go:114-121 | pruning keeps all the later elements in their order |
| RateLimiting.EachAcceptanceWithinLimit | teneo-agent-sdk/pkg/network/coordinator.go:102-131 | the minute ending at any acceptance holds at most the limit then in force |
| RateLimiting.EveryWindowWithinLimit | teneo-agent-sdk/pkg/network/coordinator.go:93-131 | every half-open minute of every run, closed on either side, holds at most the limit in force at its last acceptance, however the limit changes |
| RateLimiting.MeteredAreAll | teneo-agent-sdk/pkg/network/coordinator.go:106-109 | the history holds every passed check exactly when none ran with the limit off |
| Supervision.SupervisedGoroutine.RunGoroutine | teneo-agent-sdk/pkg/network/supervisor.go:173-232 | how the loop ends, having run the function at most once more than the restarts left; it has waited the delay of every restart it made and what passed of a cancelled one, at most the cap for each |
| Supervision.AlwaysFails | teneo-agent-sdk/pkg/network/supervisor.go:173-232 | under the shipped policy a function that always fails runs six times over exactly 31 seconds of waiting, on any platform |
| Supervision.ShippedDelays | teneo-agent-sdk/pkg/network/supervisor.go:41-48 | under the shipped policy the restarts wait 1, 2, 4, 8 and 16 seconds on any platform |
| Supervision.WaitGroupCountsRunners | teneo-agent-sdk/pkg/network/supervisor.go:157-175 | in every run, racing starts or not, the wait group counts the runners that have not called Done |
| Supervision.FlagsMatchRunners | teneo-agent-sdk/pkg/network/supervisor.go:157-175 | the live runners are one per raised flag in every state of a run exactly when no store of the run finds its flag already up |
| Supervision.RunsFromStart | teneo-agent-sdk/pkg/network/supervisor.go:76-175 | with uninterrupted starts: at most one runner per id, flagged, and the wait group counts running flags plus runners still to call Done |
| Supervision.RacingStartsMakeTwoRunners | teneo-agent-sdk/pkg/network/supervisor.go:157-170 | a run in which two starts of one id leave a runner behind a lowered flag |
| NamePattern.OneStarOne | teneo-agent-sdk/pkg/naming/validator.go:191 | backtracking match of letter, class*, class is a condition on first, middle and last characters |
| NamePattern.OnlyPlus | teneo-agent-sdk/pkg/naming/validator.go:193 | backtracking match of class+ is non-empty text of the class |
| NamingRules.PatternTextCompiles | teneo-agent-sdk/pkg/naming/validator.go:172-208 | the text built from rules parses, for every rule combination, to the intended pattern, so the fallback is never taken |
| NamingRules.DefaultText | teneo-agent-sdk/pkg/naming/conventions.go:36 | the text of the default pattern parses to the model's pattern |
| NamingRules.StrictText | teneo-agent-sdk/pkg/naming/conventions.go:50 | the text of the strict pattern parses to the model's pattern |
| AgentNaming.NoErrorsExactly | teneo-agent-sdk/pkg/naming/conventions.go:132-188 | nothing is reported exactly for names that meet every rule |
| NameErrors.ErrorsExactly | teneo-agent-sdk/pkg/naming/conventions.go:132-188 | each error is reported iff its own rule is broken; an empty name is only told that it is empty |
| NameErrors.ErrorsInOrder | teneo-agent-sdk/pkg/naming/conventions.go:139-188 | the errors come in a fixed order |
| NameErrors.WarningsExactly | teneo-agent-sdk/pkg/naming/conventions.go:190-205 | each warning is given iff its own condition holds |
| NameErrors.ConvertedRulesMean | teneo-agent-sdk/pkg/naming/validator.go:138-169 | a name is valid under converted rules iff it meets what the configuration says: bounds or their defaults, switches, reserved names or the built-in ones, prefix and suffix |
| AgentNaming.ContainsNumbers | teneo-agent-sdk/pkg/naming/conventions.go:312-319 | true exactly when some character is a digit |
| AgentNaming.ValidateAgentName | teneo-agent-sdk/pkg/naming/conventions.go:114-207 | the normalised name, the errors and the warnings in order, and validity exactly when every rule is met |
| AgentNaming.ContainsConsecutiveSpecialChars | teneo-agent-sdk/pkg/naming/conventions.go:328-337 | true exactly when two neighbouring characters are separators |
| AgentNaming.IsAbbreviation | teneo-agent-sdk/pkg/naming/conventions.go:339-351 | true exactly for at most four characters of which more than three fifths are capitals |
| AgentNaming.LoweredIsNoAbbreviation | teneo-agent-sdk/pkg/naming/conventions.go:127-130 | where case does not matter no name is ever called an abbreviation |
| AgentNaming.CompiledPatternMeansRules | teneo-agent-sdk/pkg/naming/validator.go:172-208 | the compiled pattern accepts exactly the names the rules describe, and caseSensitive does not change its language |
| AgentNaming.AllowChecksAreRedundant | teneo-agent-sdk/pkg/naming/conventions.go:174-188 | for converted rules the three Allow checks never reject a name the pattern accepts |
| AgentNaming.NormalizeAgentName | teneo-agent-sdk/pkg/naming/conventions.go:211-278 | the loops and conditionals compute Normalized |
| NameText.SpacesAre | teneo-agent-sdk/pkg/naming/conventions.go:217 | white space is the ASCII kind: tab to carriage return, and the blank |
| NameText.SpaceTrimmed | teneo-agent-sdk/pkg/naming/conventions.go:217 | trimming takes the white space off both ends and nothing else |
| NameText.KeptInOrder | teneo-agent-sdk/pkg/naming/conventions.go:216-239 | the kept text holds all the allowed characters, folded, in their order |
| NameText.NormalizedText | teneo-agent-sdk/pkg/naming/conventions.go:211-278 | under any rules, what the result is: the kept text, led, trimmed, with prefix and suffix, cut and filled up |
| NameText.DefaultNameText | teneo-agent-sdk/pkg/naming/conventions.go:211-278 | the same for the default rules, with their lead, bounds and filling |
| NameText.StrictNameText | teneo-agent-sdk/pkg/naming/conventions.go:211-278 | the same for the strict rules, with their lead, suffix, bounds and filling |
| NameText.FoldedUnderBuiltIns | teneo-agent-sdk/pkg/naming/conventions.go:219-231 | how the two rule sets fold a character and what they allow |
| NameText.FixedUnderAnyRules | teneo-agent-sdk/pkg/naming/conventions.go:211-278 | under any rules a text that already meets them character by character is left alone |
| NameNormalization.KeptExactly | teneo-agent-sdk/pkg/naming/conventions.go:216-239 | default rules keep a character exactly when the name holds a letter, digit, hyphen or underscore |
| NameNormalization.NothingKept | teneo-agent-sdk/pkg/naming/conventions.go:265-275 | with nothing kept the default result is 111 |
| NameNormalization.OnesAreNotANormalForm | teneo-agent-sdk/pkg/naming/conventions.go:241-244 | 111 fails the pattern and normalises to something else |
| NameNormalization.DefaultNormalization | teneo-agent-sdk/pkg/naming/conventions.go:211-278 | length 3..50 always; pattern match and idempotence exactly when a character is kept; valid exactly when also not reserved |
| NameNormalization.SuffixedIsNotReserved | teneo-agent-sdk/pkg/naming/conventions.go:61-111 | no reserved name ends with -agent |
| NameNormalization.StrictLanguage | teneo-agent-sdk/pkg/naming/conventions.go:50 | what the strict pattern accepts, without the pattern |
| NameNormalization.StrictKeptExactly | teneo-agent-sdk/pkg/naming/conventions.go:224-239 | strict rules keep a character exactly when the default ones do |
| NameNormalization.StrictNormalization | teneo-agent-sdk/pkg/naming/conventions.go:211-278 | with l the kept text, led and trimmed: the strict result is valid exactly when something is kept, l has no capital among its first 30 characters, and l has at most 24 characters, or ends with the suffix within 30, or is longer and its first 30 end with the suffix but for hyphens; it is then a fixed point |
| NameNormalization.StrictNothingKept | teneo-agent-sdk/pkg/naming/conventions.go:254-256 | with nothing kept the strict result is -agent, which is invalid |
| NameNormalization.StrictPromise | teneo-agent-sdk/pkg/naming/conventions.go:211-278 | lower-case names that keep a character and fit in 30 with the suffix give a valid fixed point |
| NameSuggestions.GeneratedExactly | teneo-agent-sdk/pkg/naming/conventions.go:281-308 | when a generated name has the default pattern, and when it is valid |
| NameSuggestions.PartsAreKept | teneo-agent-sdk/pkg/naming/conventions.go:281-308 | two parts the rules leave alone come out whole, in order, with the separator the rules allow between them |
| NameSuggestions.MissingParts | teneo-agent-sdk/pkg/naming/conventions.go:281-308 | with a part missing the other is normalised alone, with both missing "custom" is |
| NameSuggestions.BaseNameSplits | teneo-agent-sdk/pkg/naming/validator.go:219-242 | the base name is the name without one listed prefix and one listed suffix it properly has, and nothing else is lost |
| NameSuggestions.CandidatesAt | teneo-agent-sdk/pkg/naming/validator.go:88-117 | which candidate stands where |
| NameSuggestions.FirstValidInOrder | teneo-agent-sdk/pkg/naming/validator.go:88-120 | the suggestions stand in the candidates' order, and a full list leaves out only candidates further back |
| NameSuggestions.SuggestNames | teneo-agent-sdk/pkg/naming/validator.go:81-123 | the suggestions are the first different valid candidates (normalised, then generated and numbered for each purpose), in order, as many as asked for |
| NameSuggestions.SuggestionsMeet | teneo-agent-sdk/pkg/naming/validator.go:81-123 | so all are valid candidates, none repeats, at most count of them, the normalised name first when valid, and with fewer than count no valid candidate is missing |
| Alerting.AlertService.Add | internal/services/alert_service.go:28-55 | which message, and a fresh untriggered alert with the trimmed lower-case symbol at the end; the others stay, in place or in a grown array |
| Alerting.OperatorsMean | internal/services/alert_service.go:30-35 | which operator texts are taken, and what each compares |
| Alerting.AddedAlertFires | internal/services/alert_service.go:28-154 | an added alert is triggered by the next pass iff its price is found and compares to its value as its operator says |
| Alerting.AlertService.Remove | internal/services/alert_service.go:79-88 | the in-place shift keeps the order and identity of the others |
| Alerting.AlertService.Clear | internal/services/alert_service.go:90-96 | an empty slice in a new backing array |
| Alerting.AlertService.Snapshot | internal/services/alert_service.go:112-116 | the checker's copy has the slice's alerts in an array of its own |
| Alerting.AlertService.CheckAlerts | internal/services/alert_service.go:112-154 | a pass sets exactly the flags already set or whose price satisfies the operator |
| Alerting.PassSurvivesChanges | internal/services/alert_service.go:79-116 | no list of additions, in-place removals and clearings disturbs a snapshot |
| AlertRuns.FiringsAreJustified | internal/services/alert_service.go:112-154 | under any interleaving a triggered flag never reverts and every firing is at a price satisfying the operator |
| AlertRuns.OneCheckerFiresOnce | internal/services/alert_service.go:98-154 | with one checker each alert fires at most once |
| AlertRuns.RunsFromStart | internal/services/alert_service.go:98-154 | the same from an empty service |
| AlertRuns.FiresOnceExactly | internal/services/alert_service.go:98-154 | every run with these checkers fires each alert at most once iff there is at most one of them |
| AlertRuns.Perform | internal/services/alert_service.go:28-96 | Add, Remove and Clear on the heap objects are the interleaved model's steps |
| AlertRuns.CheckAlone | internal/services/alert_service.go:112-154 | a pass on the heap objects is the interleaved model's pass run without interruption |
| Trends.ComputeTrailingAverage | internal/commands/trend.go:85-97 | the loop computes the mean of the last k prices, k brought into range |
| Trends.CmdTrend | internal/commands/trend.go:63-118 | which refusal, or the verdict with its three averages |
| Trends.ExtractedByIndex | internal/commands/trend.go:68-74 | the prices are the second components of the two-element points, all of them and in order |
| Trends.VerdictExactly | internal/commands/trend.go:99-118 | the windows, and each of the three verdicts as an iff on the three means |
| Trends.RisingIsBullish | internal/commands/trend.go:99-118 | ten or more strictly rising prices are always bullish |
| Trends.FallingIsBearish | internal/commands/trend.go:99-118 | ten or more strictly falling prices are always bearish |
| Trends.ScalingTheVerdict | internal/commands/trend.go:84-118 | multiplying all prices by a positive constant keeps the verdict, by a negative one turns it over |
| Trends.WindowsNest | internal/commands/trend.go:99-102 | from ten points on the three windows are strictly nested |
| Formatting.IntComma | internal/services/format.go:13-26 | the loop joins the groups of three from the right: a comma stands at every fourth place from the right and nowhere else, and without the commas the text is the number |
| Formatting.IntCommaUndone | internal/services/format.go:13-26 | stripping commas and parsing gives the number back; groups after the first have three characters |
| Formatting.LoneMinusExactly | internal/services/format.go:13-26 | a lone sign is the first group exactly for negatives whose digit count is a multiple of three |
| Formatting.FUndone | internal/services/format.go:9-11 | for any number F's text parses to the nearest whole ten-thousandths, the number itself iff it is whole, with no trailing point or fractional zero |
| Formatting.NoLeadingZero | internal/services/format.go:14 | no number but zero is written with a leading zero |
| Formatting.TiesGoToEven | internal/services/format.go:10 | exactly between two ten-thousandths the even one is shown |
| Formatting.WholePartIsPlain | internal/services/format.go:9-11 | the whole part of F's text has no leading zero but a lone one |
| Formatting.MinusZeroExactly | internal/services/format.go:9-11 | the text is -0 exactly for negatives that round to nothing |

## Left out

- Backoff.BackoffsAgree: float64 rounding inside the products is not modelled.
- Backoff.SupervisorDelayBounds: says nothing about products beyond int64 unless even the cap times the factor fits; for whole factors SupervisorDelayExactly does.
- Backoff.SupervisorDelayExactly: says nothing of a platform whose out-of-range value is positive and below the cap, where a later round may still pass the cap.
- BreakerInterleaving.NeverWedges: a protected function that panics never reports, and its call stays due forever; ClientRuns.ClientNeverWedges inherits this.
- HealthMonitoring.AverageWithinWindow: nothing is claimed when the sum of the window overflows int64; AverageExactly says what the average then is not.
- Client.AttemptReconnection: one chain; ReconnectionChains has the bound for chains that overlap.
- Supervision.FlagsMatchRunners: Stop's wait and RestartGoroutine's cancellation are not modelled.
- Formatting.FUndone: exact reals, so float64's own rounding, its negative zero, infinities and NaN are not modelled.
- AlertRuns.FiringsAreJustified: NaN and infinite values, which the value parser accepts, are not modelled.
- Alerting.AlertService.Add: the reply's text is not modelled, only which reply it is.
- RetryQueues.MessageRetryQueue.RetryMessage: LastAttempt and Error are written and never read, and are not modelled.
- HTTP, WebSocket and JSON traffic, and the goroutines that read and write messages; a send's result is a choice of the schedule.
- The ticker loops and the Start and Stop of queue, monitor and supervisor: only how often passes run.
- State-change callbacks, log text, status and report strings, and the getters.
- Health status thresholds and GetMetrics' counting loop, which would add only easy members.
- NFT minting, contracts, signing, OpenAI code, exchange fetchers and configuration loading.
- Non-ASCII names, whose letter classes and case folding differ between the filter and the pattern.
