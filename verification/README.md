# Models of golang-basics

Dafny models of the concurrent and transactional protocols of the repository, and proofs of what
every run of them keeps.

| module | models | form |
|---|---|---|
| `SlidingWindow` | the ten-slot ring of `libs/resilient-http-client/window.go` | a class over an array, proved against functions on the ring |
| `RetryBudget` | the retry budget of `budget.go` | a class, and the log of a budget that keeps every event |
| `Breaker` | the circuit breaker of `breaker.go`, call by call | a class, and the breaker that keeps every result |
| `BreakerRuns` | the same code, compare-and-swap by compare-and-swap | a state machine over any number of threads |
| `BreakerTrips` | what a trip rests on, and when it happens | lemmas about the runs of that machine |
| `InFlight` | `enter`, `leave` and `Shutdown` of `client.go` | a state machine over the atomic steps |
| `Send` | `send`, `attempt` and `releaseBody` of `client.go` | classes with a ledger of what is taken and given back |
| `TombstoneCache` | `libs/valkey` | a class, and a timed state machine of readers and writers |
| `Lru` | the dedupe set and the handler of `services/consumer/internal/worker` | classes, proved against the history of touches |
| `Store` | `services/tasks/internal/store` | a class whose transactions are proved against functions on the tables |
| `Paging` | `List` of the store | functions: the source only reads |
| `Relay` | one pass of `services/tasks/internal/outbox/relay.go` | a class with the pass's loop, proved against functions |
| `RelayRuns` | the outbox over every run | a state machine of transactions and passes |
| `Consumer` | one member of `libs/kafka/consumer.go` | methods with the source's loops, proved against functions |
| `ConsumerGroup` | the group | a state machine of members, broker and driver callbacks |
| `ProducerSwap` | the replaceable producer of `libs/kafka-rdkafka/rdkafka.go` | a state machine over the read/write lock |
| `Sets` | counting a set's members | a helper |

A state machine is a function `Next` from a state and an action to a state; an action that is not
enabled changes nothing. `Run` folds it over any sequence of actions, so a lemma about `Run` is
about every interleaving. Whatever the environment decides (the clock, random choices, the
broker's and the database's answers, the caller's context, failures) is part of the actions or a
parameter. Times are integers, ratios are reals.

The environment is taken as follows. Driver callbacks run only inside Poll or Close; Poll returns
the records of an owned partition in order from the member's position; a partition moves to
another member only after the Revoked or Lost callback of this one has returned, or after this
one is gone; a commit is settled when it returns, and a failed one may have been applied to any
of its partitions (`libs/kafka/driver.go:39-83`). The database serialises transactions that touch
one row or one idempotency key, a task's row lock is held from its event's id to the commit, and
the relay's advisory lock is held from the select to the end of the transaction. An outage during
a publish may or may not have appended the record.

Two promises hold only under a condition, and the exact condition is proved. `Tombstone` promises
that a fill which raced an invalidation cannot bring stale data back: that is so of every run if
and only if every fill lands less than the tombstone's lifetime after its database read
(`SafeExactlyWhenFillsBeatTombstones`; `SlowFillResurrects` is the run in which it fails). A second
conditional change of one version of a task takes effect if and only if the task was deleted and
created anew in between and has been updated as often as that version says (`SecondChangeExactly`;
`RecreatedVersionChangesAgain` is such a run). That is a run of the store's own operations: the
service creates every task under a fresh UUID (`services/tasks/internal/api/api.go:118`), so there
one version is changed at most once.

## Model

| member | source | states |
|---|---|---|
| SlidingWindow.RingRefinesLog | libs/resilient-http-client/window.go:27-47 | After any additions whose times do not go back, the ten reused slots report exactly the totals of the logged events fewer than ten slot indices old. |
| SlidingWindow.RecentInTime | libs/resilient-http-client/window.go:38-47 | In terms of time: everything within nine slot lengths is counted, nothing ten or more slot lengths old is. |
| SlidingWindow.RingNeverOvercounts | libs/resilient-http-client/window.go:27-50 | Even when the clock goes back, the ring never reports more than was added since the reset. |
| SlidingWindow.Window.constructor | libs/resilient-http-client/window.go:22-24 | A tenth of the length per slot, at least one nanosecond, and nothing counted. |
| SlidingWindow.Window.Add | libs/resilient-http-client/window.go:27-35 | The array in place becomes the ring with the addition counted: a slot that counted another index starts over, the others stay. |
| SlidingWindow.Window.Sum | libs/resilient-http-client/window.go:38-47 | The loop over the slots gives the ring's totals, those that `RingRefinesLog` equates with the log's. |
| SlidingWindow.Window.Reset | libs/resilient-http-client/window.go:50 | Every slot is empty afterwards. |
| RetryBudget.RingRefinesFullLog | libs/resilient-http-client/budget.go:32-55 | Over any calls whose clock does not go back, the budget on the ring grants exactly the retries of one that keeps every event. |
| RetryBudget.GrantsAgree | libs/resilient-http-client/budget.go:42-55 | The totals the next `tryRetry` decides on are those of the full log. |
| RetryBudget.GrantedExactly | libs/resilient-http-client/budget.go:42-55 | A retry is granted if and only if the retries granted in the last ten slots are fewer than minRetries + ratio x the requests made there. |
| RetryBudget.CountsAreTotals | libs/resilient-http-client/budget.go:32-55 | The totals the bounds speak of are the request calls and the granted retries, each counted once. |
| RetryBudget.RetriesInTenSlots | libs/resilient-http-client/budget.go:42-55 | Retries granted in any ten consecutive slots are fewer than minRetries + ratio x (requests in those slots and the nine before) + 1. |
| RetryBudget.RetriesOverRun | libs/resilient-http-client/budget.go:32-55 | A run over k ten-slot blocks with n requests grants fewer than k x (minRetries + 1) + 2 x ratio x n retries. |
| RetryBudget.Budget.constructor | libs/resilient-http-client/budget.go:19-29 | A new budget is the one of no calls, with the ratio, the minimum and a tenth of the window per slot. |
| RetryBudget.Budget.Request | libs/resilient-http-client/budget.go:32-39 | The object stays the budget of the calls made, with this request counted once. |
| RetryBudget.Budget.TryRetry | libs/resilient-http-client/budget.go:42-55 | The answer is the one `GrantedExactly` describes, and only a granted retry is counted. |
| Breaker.RingBreakerRefinesLog | libs/resilient-http-client/breaker.go:144-176 | With atomic calls and a clock that does not go back, the breaker on the ring is always in the snapshot of the one that keeps every result of its generation: it trips at the same failures. |
| Breaker.OpensExactly | libs/resilient-http-client/breaker.go:152-175 | Over every run of atomic calls, a closed breaker opens if and only if the call is a failure of its own generation after which that generation's results in the last ten slots are at least minRequests and their failures at least ratio x them; any other record leaves it as it is. |
| Breaker.LogIsResults | libs/resilient-http-client/breaker.go:152-171 | The log of the breaker that keeps every result is the results, one request each, that closed snapshots of that generation met. |
| Breaker.CircuitBreaker.constructor | libs/resilient-http-client/breaker.go:85-100 | A new breaker is the one of no calls, closed at generation 0, with the thresholds given and a tenth of the window per slot. |
| Breaker.CircuitBreaker.Allow | libs/resilient-http-client/breaker.go:112-141 | Closed admits; open refuses until openTimeout has passed and then admits the first probe; half-open admits while slots are free; each with its ticket and snapshot, and the object stays the breaker of the calls made. |
| Breaker.CircuitBreaker.Record | libs/resilient-http-client/breaker.go:144-176 | The object stays the breaker of the calls made, so it opens exactly as `OpensExactly` says; ignored, stale and successful results never move it. |
| Breaker.CircuitBreaker.RecordProbe | libs/resilient-http-client/breaker.go:178-209 | A probe of the half-open generation that fails opens at that time, one that succeeds counts or closes, one ignored frees its slot; any other moves nothing. |
| BreakerRuns.Reachable | libs/resilient-http-client/breaker.go:112-221 | The invariant of every interleaving of load, clock, count and swap steps: cells loaded, tickets held, window and probe slots fit the current snapshot. |
| BreakerRuns.GenerationHasOneState | libs/resilient-http-client/breaker.go:213-221 | In every run each state change raises the generation by exactly one and nothing else does; generations never go back and each has one state. |
| BreakerTrips.TripsOnOwnResults | libs/resilient-http-client/breaker.go:144-176 | Over every run, closed goes only to open, by the swap of a thread whose evidence is what the window held just after that thread's own count: the last results counted in the run till then, whose window totals reach minRequests requests and ratio x requests failures, each counted by a thread that a closed snapshot of the ending generation had admitted. |
| BreakerTrips.WindowIsSuffix | libs/resilient-http-client/breaker.go:164-171 | However counts and resets interleave, the window always holds the last results of the run's whole history of counts. |
| BreakerTrips.HistoryWasCounted | libs/resilient-http-client/breaker.go:112-171 | Every result in that history is of a request its own thread was admitted with, on a closed snapshot of the generation it is counted for. |
| BreakerTrips.OpenedInItsTime | libs/resilient-http-client/breaker.go:163-191 | In every run an open snapshot's time is not ahead of the clock, and not before any time at which the generation before it had not begun. |
| BreakerRuns.OpenYieldsNoTicketBeforeTimeout | libs/resilient-http-client/breaker.go:121-129 | Until openTimeout has passed the open snapshot stays, and no thread holds a ticket of its generation or a later one, whatever interleaves. |
| BreakerRuns.HalfOpenAccounting | libs/resilient-http-client/breaker.go:130-200 | In every reachable half-open state probes = outstanding probe tickets of the generation + its successes, at most maxProbes; releasing one never underflows. |
| BreakerRuns.ClosesOnAllProbes | libs/resilient-http-client/breaker.go:192-199 | Half-open to closed happens at exactly maxProbes successes of that generation, with no probe of it outstanding. |
| BreakerRuns.NoWedge | libs/resilient-http-client/breaker.go:130-139 | Half-open with no probe outstanding, the next `allow` admits a probe. |
| BreakerRuns.OpenAdmitsAfterTimeout | libs/resilient-http-client/breaker.go:121-129 | Open for openTimeout or longer, an undisturbed `allow` goes half-open with the first probe. |
| BreakerRuns.ClosedAdmits | libs/resilient-http-client/breaker.go:116-120 | Closed, an undisturbed `allow` is admitted in the snapshot's generation. |
| BreakerRuns.ProbeSettles | libs/resilient-http-client/breaker.go:178-209 | An undisturbed probe's failure opens at the time it is taken in, its success counts or closes, an ignored one frees its slot. |
| BreakerRuns.ResultIsCounted | libs/resilient-http-client/breaker.go:152-171 | An undisturbed result of the closed generation is counted, at the time it is taken in. |
| BreakerRuns.CountThenTrip | libs/resilient-http-client/breaker.go:163-175 | An undisturbed count opens the breaker if and only if it is of a failure and the window then meets both inequalities. |
| InFlight.CountIsExact | libs/resilient-http-client/client.go:421-437 | In every reachable state the counter is the number of requests between their increment and their decrement. |
| InFlight.NilMeansDrained | libs/resilient-http-client/client.go:443-459 | Once `Shutdown` has returned nil no admitted request is in flight, and none is in any later state. |
| InFlight.NoLostWakeup | libs/resilient-http-client/client.go:430-459 | A waiter with nothing in flight has a token queued, or a `leave` is about to queue one. |
| InFlight.WakeupArrives | libs/resilient-http-client/client.go:430-459 | From such a state at most four further steps make `Shutdown` return nil. |
| InFlight.AdmittedUnlessClosing | libs/resilient-http-client/client.go:421-428 | A request is admitted exactly when shutdown has not begun by the time it looks; a refused one is counted out. |
| Send.FullJitter | libs/resilient-http-client/backoff.go:16-27 | The delay is at most the cap and at most base x 2^retry, and can be any value up to both. |
| Send.Client.Enter | libs/resilient-http-client/client.go:421-428 | A request is refused exactly when closing; a refused one is counted out again. |
| Send.Client.Attempt | libs/resilient-http-client/client.go:253-358 | On every path an admitted attempt takes one ticket and records it once, takes one slot if it gets past the waits and releases it once unless it succeeds, and leaves other requests' entries alone. |
| Send.OutcomeByReply | libs/resilient-http-client/client.go:275-372 | The breaker hears failure from a status of 500 or more and from broken transports, success from any other answer and a refused redirect, and nothing from local obstacles and cancelled calls. |
| Send.AnswerByObstacle | libs/resilient-http-client/client.go:253-358 | The response below 400 of an attempt without obstacles is the caller's, and otherwise the error of the first thing in its way. |
| Send.RetriedExactly | libs/resilient-http-client/client.go:226-240 | An attempt is worth another one if and only if it timed out, lost its connection or got 408, 425, 429 or 5xx but 501 and 505, Retry-After is within the maximum, the deadline leaves time and the budget has a retry. |
| Send.Client.Attempts | libs/resilient-http-client/client.go:214-248 | At most `limit` attempts, each retried only for a reason worth it; waits are jitter or Retry-After and at most the maximum; the request ends for one of the three reasons it may; other requests' entries are untouched. |
| Send.Client.Send | libs/resilient-http-client/client.go:184-248 | From any state in which everything is given back but what open bodies hold, a request leads to such a state again, with one open body more exactly when it succeeds; attempts are at most max(1, RetryMaxAttempts). |
| Send.Body.Close | libs/resilient-http-client/client.go:406-416 | The first Close returns the body's slot and in-flight count and keeps everything else in balance, later ones return nothing. |
| Send.RequestThenClose | libs/resilient-http-client/client.go:184-416 | Whatever requests came before and whichever bodies are open, a request and any number of Closes give back every ticket, slot and in-flight count they took, exactly once. |
| TombstoneCache.Cache.Get | libs/valkey/valkey.go:93-108 | A hit is exactly a value that has not expired; a missing or expired key and a tombstone are misses. |
| TombstoneCache.Cache.SetNX | libs/valkey/valkey.go:131-143 | Writes only where neither a value nor a tombstone lives, refuses a ttl that is not positive, and leaves other keys. |
| TombstoneCache.Cache.Tombstone | libs/valkey/aside.go:28-36 | The mark replaces whatever the key holds, for ttl; a ttl that is not positive is refused. |
| TombstoneCache.Jitter | libs/valkey/aside.go:41-50 | Each of the values within ten per cent of ttl that the random choice names, always positive; a ttl that is not positive is returned. |
| TombstoneCache.HitsRespectTombstones | libs/valkey/aside.go:68-99 | If every fill lands less than the tombstone's ttl after its read, then in every run after the tombstone of version v no hit is older than v, and after that of a delete there is none. |
| TombstoneCache.SlowFillResurrects | libs/valkey/aside.go:21-27 | Otherwise a run of five steps brings the old version back. |
| TombstoneCache.SafeExactlyWhenFillsBeatTombstones | libs/valkey/aside.go:16-36 | So the promise holds of every run if and only if fills land sooner than tombstones expire. |
| TombstoneCache.HitsAreBoundedlyStale | libs/valkey/aside.go:38-99 | Whether or not tombstones are applied, a hit was the committed row less than 1.1 x ttl plus the read-to-fill gap ago. |
| TombstoneCache.FillIsServed | libs/valkey/aside.go:82-99 | A value filled into a free key is what every lookup gets for at least 0.9 x ttl of any run without a further tombstone. |
| Lru.TouchTracksHistory | services/consumer/internal/worker/lru.go:28-52 | Moving to the front, or pushing and evicting the oldest, keeps the list equal to the first `size` distinct ids by last touch. |
| Lru.RemembersUpToSize | services/consumer/internal/worker/lru.go:39-52 | As many ids are remembered as distinct ones were touched, up to `size`, the last touched in front. |
| Lru.ForgottenBetween | services/consumer/internal/worker/lru.go:39-52 | An id touched and no longer remembered: at least `size` other distinct ids were touched since. |
| Lru.Lru.constructor | services/consumer/internal/worker/lru.go:23-25 | A new set remembers no touch. |
| Lru.Lru.Contains | services/consumer/internal/worker/lru.go:28-36 | Answers membership, and a hit counts as a touch of the history the set remembers. |
| Lru.Lru.Add | services/consumer/internal/worker/lru.go:39-52 | List and index in place remember the history with this touch. |
| Lru.Worker.constructor | services/consumer/internal/worker/worker.go:72-96 | The dedupe size defaults to 10000. |
| Lru.Worker.Handle | services/consumer/internal/worker/worker.go:142-189 | Rejected exactly if undecodable or of unknown type, duplicate exactly if its id is remembered, failed exactly if its effect fails otherwise; failed and rejected deliveries leave the memory as it was, the others touch their id, and each counter counts its answer. |
| Lru.AppliedTwiceOnlyAfterSize | services/consumer/internal/worker/worker.go:161-184 | Over any deliveries, an event id is applied a second time only if those in between applied or saw again at least `size` other distinct ids. |
| Lru.PassedOverOnlyOnceApplied | services/consumer/internal/worker/worker.go:166-183 | Over any deliveries, one is passed over only if its id was applied before: a failed delivery is never swallowed. |
| Store.StreamAgreesWithTable | services/tasks/internal/store/store.go:43-227 | After any operations, however each ended, folding the committed events gives exactly the tasks table (title, done, version), and per task versions start at 1 and rise by one. |
| Store.UpdateApplies | services/tasks/internal/store/store.go:173-200 | For every ending: the row asked for, if there in the version asked for, gets the patch's fields and the next version and keeps the rest, its event tells it, and no other row and no key changes; otherwise nothing changes and the error says why. |
| Store.CreateMakes | services/tasks/internal/store/store.go:65-114 | For every ending: the row, the event and the key row carry what was asked for; a taken key or id makes nothing. |
| Store.DeleteTakes | services/tasks/internal/store/store.go:205-227 | For every ending: the row goes with its own keys, those of other tasks stay, and the event tells its last version; otherwise nothing changes and the error says why. |
| Store.OneChangePerVersion | services/tasks/internal/store/store.go:173-227 | While a task lives, at most one conditional change of each of its versions takes effect: two need a creation of the id in between. |
| Store.SecondChangeExactly | services/tasks/internal/store/store.go:173-227 | After a change of version v, a later one that is not rolled back takes effect if and only if the task was created anew in between, not deleted since, and updated exactly v - 1 times since. |
| Store.VersionCountsUpdates | services/tasks/internal/store/store.go:176-180 | Over any run, a task's version is one more than the updates that took effect since its creation. |
| Store.RecreatedVersionChangesAgain | services/tasks/internal/store/store.go:65-227 | A run of the store's operations in which one version is changed twice. |
| Store.RepeatsReplayTheFirst | services/tasks/internal/store/store.go:58-114 | Over any run, while the key is kept, a repeat of a create that took effect, even one whose reply was lost, is a replay of that task, another digest is refused, and neither changes anything however it ends. |
| Store.KeyIsKept | services/tasks/internal/store/store.go:205-261 | Over any run, a key is kept, for its first task, until that task is deleted or a purge with a later cutoff takes effect. |
| Store.ReplayFindsTheFirst | services/tasks/internal/store/store.go:103-109 | The separate read that completes a replay finds the task, as it is then, if and only if it was not deleted since, or was created anew; otherwise the replay fails. |
| Store.TaskStore.constructor | services/tasks/internal/store/store.go:32 | An empty store. |
| Store.TaskStore.Create | services/tasks/internal/store/store.go:65-114 | The tables and the answer are those of the create: inserted with its key and event, refused for a reused key, failed, or replayed from whatever the later read finds. |
| Store.TaskStore.Update | services/tasks/internal/store/store.go:173-200 | The tables and the answer are those of the update that `UpdateApplies` describes, in one transaction. |
| Store.TaskStore.Delete | services/tasks/internal/store/store.go:205-227 | The tables and the answer are those of the delete that `DeleteTakes` describes, in one transaction. |
| Paging.Limit | services/tasks/internal/store/store.go:138-141 | The caller's limit when it is in range, the default of 50 otherwise. |
| Paging.PageIsNextStretch | services/tasks/internal/store/store.go:136-167 | A page is in order, after the cursor, leaves out nothing before its end, and has a next cursor exactly when rows remain; a page with one is full. |
| Paging.NewestFirst | services/tasks/internal/store/store.go:144-151 | Creation times fall along a page and ids fall among equal times, all strictly below the cursor. |
| Paging.NoTaskTwice | services/tasks/internal/store/store.go:136-167 | However the table changes between pages, tasks come in listing order within and across pages, so none twice. |
| Paging.PresentThroughoutAppearsOnce | services/tasks/internal/store/store.go:136-167 | A task present throughout a finished walk is on exactly one page, at one place. |
| Paging.PagesAreTheTable | services/tasks/internal/store/store.go:136-167 | On a fixed table the pages, joined, are the whole table in listing order. |
| Paging.WalkFinishes | services/tasks/internal/store/store.go:136-167 | On a fixed table a walk finishes, after at most as many pages as there are tasks, or one. |
| Paging.ListingIsUnique | services/tasks/internal/store/store.go:145-151 | The query's order is total: a table has one listing. |
| Relay.Outbox.RelayOnce | services/tasks/internal/outbox/relay.go:275-367 | The pass leaves the topic, the rows, the error and the two counts that its verdicts and the end of its transaction say: what was acknowledged before an outage is sent, deleted and counted, unless a failure could not be noted or the transaction fails. |
| Relay.PassByVerdicts | services/tasks/internal/outbox/relay.go:323-356 | A pass goes on exactly until the first outage or rejection it cannot note, and is lost only if that failure could not be noted; topic and counts follow. |
| Relay.AckedRowsGo | services/tasks/internal/outbox/relay.go:347-366 | A row is deleted if and only if the pass came to it, the broker acknowledged it, and the transaction took effect, outage or not. |
| Relay.SelectedOnceDue | services/tasks/internal/outbox/relay.go:297-301 | With room a row is selected if and only if it has fewer than MaxAttempts rejections and its time has come; without room it yields only to rows before it. |
| Relay.OutagesNeverCount | services/tasks/internal/outbox/relay.go:323-366 | Whatever a pass met and however it ended, a row it leaves has one rejection more, and is put off, if and only if its own publish was rejected, with no outage before it, and the transaction took effect; otherwise it is as it was. |
| Relay.PassLowersBudget | services/tasks/internal/outbox/relay.go:323-362 | A committed pass without outages lowers the sum over live rows of MaxAttempts - rejections by at least the size of its batch. |
| Relay.SpentMeansDead | services/tasks/internal/outbox/relay.go:297-301 | That sum is zero exactly when every row is dead. |
| Relay.DrainEnds | services/tasks/internal/outbox/relay.go:297-362 | With no new events and no outages, the number of nonempty passes is at most the first sum. |
| Relay.RejectDelayDoubles | services/tasks/internal/outbox/relay.go:330-338 | The first rejection waits RejectBackoff, each next one twice as long, none more than an hour. |
| Relay.Backoff | services/tasks/internal/outbox/relay.go:215-226 | The doubling loop gives interval x 2^(n-1) capped at maxDelay, jittered within its upper half. |
| RelayRuns.Reachable | services/tasks/internal/outbox/relay.go:289-366 | The invariant of every interleaving of transactions and passes: ids in commit order per task, rows, topic and the pass under way fit each other. |
| RelayRuns.TaskOrderKept | services/tasks/internal/outbox/relay.go:228-366 | For a task none of whose events was ever rejected, every appearance of an event in the topic comes after one of each event of the task committed before it, however passes crashed, rolled back or stopped. |
| RelayRuns.NoEventLost | services/tasks/internal/outbox/relay.go:321-366 | Every committed event is still in the table, or was acknowledged and is in the topic. |
| RelayRuns.DeadAfterMaxAttempts | services/tasks/internal/outbox/relay.go:323-346 | In every reachable state a row is dead exactly when MaxAttempts rejections of it were committed. |
| RelayRuns.PassIsARun | services/tasks/internal/outbox/relay.go:275-367 | The topic and the rows `Relay.Outbox.RelayOnce` leaves are those of the machine's select, publish and end steps, so the run-level claims are about that loop. |
| Consumer.Process | libs/kafka/consumer.go:236-288 | Done means accepted by the handler or published to the dead-letter topic; every earlier attempt and publish failed and was retried; at most maxRetries + 1 of each; stuck and draining each have their only causes. |
| Consumer.FateIsForced | libs/kafka/consumer.go:236-395 | The replies leave a record one fate only: accepted, parked, cut off by the drain, or stuck. |
| Consumer.Member.constructor | libs/kafka/consumer.go:64-109 | A new member owns nothing and has nothing pending. |
| Consumer.Member.ProcessBatch | libs/kafka/consumer.go:211-225 | Records are taken in order up to the first that is neither done nor foreign; each owned one fares as the handler's and the dead-letter topic's replies say, and exactly the done ones are marked. |
| Consumer.MarkedIsPrefix | libs/kafka/consumer.go:208-225 | What is marked is a per-partition prefix: below a partition's pending offset every record of the batch is done. |
| Consumer.UndoneIsNotMarked | libs/kafka/consumer.go:219-222 | A partition none of whose records is done keeps its pending offset, or has none. |
| Consumer.Member.CommitLocked | libs/kafka/consumer.go:422-448 | Names exactly the pending offsets, plus one, of owned partitions asked for; foreign ones are dropped, committed ones forgotten, and after a failure they stay. |
| Consumer.Member.OnAssigned | libs/kafka/consumer.go:460-471 | The partitions are owned too. |
| Consumer.Member.OnRevoked | libs/kafka/consumer.go:480-492 | Commits what is pending on the partitions and forgets them, also when that commit fails. |
| Consumer.Member.OnLost | libs/kafka/consumer.go:496-512 | Forgets the partitions and their offsets and commits nothing. |
| ConsumerGroup.Reachable | libs/kafka/consumer.go:135-288 | The invariant of every run of any number of members: pending within owned, each partition owned once, batches continue their partitions, everything below a position or a pending offset done. |
| ConsumerGroup.NoRecordSkipped | libs/kafka/consumer.go:135-288 | Every record below a partition's committed position was accepted by a handler or published to the dead-letter topic. |
| ConsumerGroup.CommitMovesForward | libs/kafka/consumer.go:422-448 | A commit, complete or partly applied, moves positions of owned partitions forward over done records, and no others. |
| ConsumerGroup.CommitLands | libs/kafka/consumer.go:422-492 | In every reachable state a commit the broker answers makes everything pending the committed position, after a batch and on a revoke. |
| ConsumerGroup.PositionNeverMovesBack | libs/kafka/consumer.go:398-520 | A committed position never moves back, across members, revokes with failed commits, losses and crashes. |
| ConsumerGroup.CommitsOnlyOwned | libs/kafka/consumer.go:415-448 | In every reachable state pending is within owned, no partition has two owners, and no step moves a position its member does not own. |
| ConsumerGroup.BatchIsARun | libs/kafka/consumer.go:211-225 | The batch loop of `Consumer.Member` is a run of the machine's steps with the same marks. |
| ConsumerGroup.AcceptedByReplies | libs/kafka/consumer.go:211-288 | What a batch adds to the accepted records is exactly the owned ones that a handler accepted or the dead-letter topic took. |
| ProducerSwap.Reachable | libs/kafka-rdkafka/rdkafka.go:152-311 | The invariant of every interleaving: the lock excludes, the wait group counts its goroutines, and each client is current, taken by one thread, or destroyed. |
| ProducerSwap.NoCallInsideDestroyed | libs/kafka-rdkafka/rdkafka.go:271-311 | No produce, ping or flush is inside a client that is being or has been destroyed. |
| ProducerSwap.DestroyedAtMostOnce | libs/kafka-rdkafka/rdkafka.go:191-221 | Repeated fatal reports, failed replacements and Close never destroy a client twice. |
| ProducerSwap.NoneCreatedAfterClosing | libs/kafka-rdkafka/rdkafka.go:191-221 | After closing no client is created, and closing is for good. |
| ProducerSwap.ClosedMeansAllDestroyed | libs/kafka-rdkafka/rdkafka.go:297-311 | When the closing call has returned, and ever after, every client created has been destroyed exactly once. |
| ProducerSwap.FatalReplaces | libs/kafka-rdkafka/rdkafka.go:173-221 | A fatal report on the current client of an open producer, undisturbed, leads to a new current client and the failed one taken to be destroyed, if creating succeeds; a stale report or a failed creation changes no client. |
| ProducerSwap.CallReachesClient | libs/kafka-rdkafka/rdkafka.go:271-288 | An undisturbed send or ping is inside the current client, or turned away once closed. |
| ProducerSwap.CloseDestroys | libs/kafka-rdkafka/rdkafka.go:297-311 | An undisturbed Close closes, destroys the current client and waits for the group. |

## Left out

- Float64 rounding of ratios and jitter (reals, and integers chosen by a parameter), int64 and uint64 wrap-around, and times before 1970.
- A breaker, budget, limiter or bulkhead that is not configured, apart from the limiter and the bulkhead in `Send`; the callbacks on a state change.
- Exact window counts under interleaved `record` calls: a recorder that holds an old snapshot may reset a newer generation's window, so the exact counts are for atomic calls and the interleaved ones keep the claim on whose results they are.
- Several concurrent `Shutdown` callers: one token wakes one of them.
- The choice of retryable requests by method, header and body: it is the parameter `retry`. Parsing of Retry-After, the redirect rule of `classify`. Requests of one client follow each other on its ledger, with bodies open in between; requests at the same moment are the subject of `InFlight` and `BreakerRuns`.
- Lookups and fills that fail, corrupt entries and shared loads of `Aside`: the machine has readers that load and fill, or drop what they loaded. Misses are not claimed to be fresh. The machine has one key, and its row is not created again after a delete.
- Two replicas' dedupe sets: each process has its own.
- Event ids and timestamps in payloads.
- Ids and the collation of the database: numbers stand for them. The cursor's encoding.
- Rows locked by others (SKIP LOCKED) and operators who edit the outbox; last_error; the database's rounding of next_attempt_at; the loop that schedules passes, its wake-ups and gauges.
- RelayRuns.TaskOrderKept: says nothing of a task with a rejected event, which gives up its order by design.
- Whether a driver meets the contract that the group assumes; a member that goes on after its partitions moved without a callback; the schedule of Run and the drain timer, which are choices of the actions.
- ProducerSwap.Reachable: the log pump of a client may also report a fatal error in the model, which allows more runs than the source has.
- The queue-full wait and the delivery report of the producer's Send: only the enqueue is inside a client.
- HTTP handlers, configuration, metrics, logs, traces, health checks, title rules, encodings and the generated contracts: input and output, or easy members.
