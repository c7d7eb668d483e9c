# marketflow: a verified model

This project models the parts of the market-data service where concurrency, eviction and rounding
decide whether the numbers it reports are right, and proves what those parts keep over every run.
`dafny verify dfyconfig.toml` checks all of it.

## What is modelled

| file | models |
|---|---|
| `Market.dfy` | the market-data record and a worker's validation of it |
| `Pipeline.dfy` | the pipeline of `internal/core/service/exchange/service.go` as a transition system: one step per entry into a select, channel operation, send timeout, cancellation and exit of a fan-in reader, a distributor or a worker, plus arrivals, closing of inputs, the channel-by-channel start, failed starts and the consumer. Number of workers and all buffer sizes are parameters |
| `PipelineConservation.dfy`, `PipelineOrder.dfy`, `PipelineProgress.dfy` | what every run of that system keeps |
| `PipelineDispatch.dfy` | where a distributor's dispatches go: round robin over the channels it finds in the pool |
| `PipelineCancel.dfy` | which goroutines a cancelled context ends and which it leaves waiting |
| `PipelineWitness.dfy` | exactly which starts, failed starts and cancellations lose a guarantee, with the runs that do |
| `Locks.dfy` | `modeMutex` and `runMutex` with Go's read-write lock semantics, and every call of the service as the sequence of lock operations it performs |
| `Lifecycle.dfy` | classes `Adapter` and `ExchangeService`: start, stop and the two mode switches over both adapter families |
| `StopRace.dfy` | several calls stopping the same adapters at once, statement by statement |
| `Reconnect.dfy` | one adapter's reader and reconnector goroutines interleaved with Start and Stop, statement by statement |
| `Store.dfy`, `Keys.dfy`, `CacheLog.dfy` | the Redis commands used, the cache keys and their parser, and the log of commands of the two goroutines that share the store |
| `Cache.dfy` | class `RedisAdapter`, whose writes and cleanups let the other goroutine's commands in between their own |
| `CacheRefinement.dfy` | the evicting, deduplicating cache against the log of ticks, over every interleaving of the commands of writes and cleanups |
| `PriceStats.dfy`, `PriceQueries.dfy` | highest, lowest and average of a list of prices, and the cache's period queries against the log of ticks |
| `PriceAccuracy.dfy`, `PriceServices.dfy` | how far the reported numbers are from the prices logged, and class `PriceService` over the cache |
| `PriceAverages.dfy` | what the average is an average of |
| `Provenance.dfy` | pipeline, consumer and cache put together |
| `Rounding.dfy`, `TestMode.dfy` | decimal rounding, the synthetic exchange's tiered rounding, and its random walk shared by several servers |

Prices, times and scores are exact reals (seconds). Random draws, dial results, failures of store
commands, arrival of records and the choice of the next goroutine are parameters. A timeout arm is
always possible while its send waits. A goroutine watches the context that is current when it enters a
select, for as long as it waits there; each start makes a new context, any context may be cancelled at
any time, and a cancel arm is possible exactly when the watched one has been. A distributor looks its
worker channel up in a step of its own, because a start may be replacing the pool meanwhile.

A start makes its worker channels one by one, redirecting one pool entry with each, while earlier
distributors and workers go on, as `SwitchToTestMode` and `SwitchToLiveMode` do. `StopDataProcessing`,
which replaces all channels, ends a run of the pipeline. In `Reconnect.dfy` a stopped adapter is not
started again; in `Lifecycle.dfy` it may be, with the consequences stated there.

A run of the cache is a log of store commands: the consumer's `SET`, `ZADD`, `EXPIRE` for each tick and
the cleanup's `KEYS`, `ZREMRANGEBYSCORE` per key, `KEYS`, `GET` and perhaps `DEL` per record, in any
interleaving that keeps each program's order. A command may be refused, or executed with its answer lost.

## Where the code does less than it seems to promise

- Periods longer than 119 seconds (`3m` to `24h` are accepted, `internal/utils/period.go:13-30`) can
  miss ticks that are inside them, because cleanup and expiry keep two minutes
  (`CacheRefinement.EvictionInvisibleIff`). Shorter periods are answered as if nothing were evicted
  exactly when no text of the last 119 seconds was last stored before an expiry of its key
  (`CacheRefinement.EvictionInvisibleExactly`). A renewal of the expiry that fails, which the code
  ignores, can break that, and so can one that comes after the old expiry has passed between `ZADD` and
  `EXPIRE` (`CacheRefinement.LateRenewalHidesFreshTick`).
- A latest record written between a cleanup's `GET` of an older one and its `DEL` is deleted with it:
  the exact condition is `CacheRefinement.FreshRecordMissingIff`, a run is
  `CacheRefinement.CleanupDeletesFreshRecord`.
- A price quoted again within the current second, with a millisecond timestamp, hides its earlier tick
  from a window that contains it (`CacheRefinement.SubSecondQuoteHidesTick`); the exact condition is
  `CacheRefinement.DeduplicationExactIff`.
- An average weighs each distinct price once. It is the mean of the ticks for every choice of prices
  exactly when each price of the window was logged equally often (`PriceAverages.AverageIsTickMeanIff`).
- After a second start two distributors race, and one worker may publish two records of one input in
  reverse: input order per worker is kept exactly by runs with at most one successful start
  (`PipelineWitness.OrderedIffOneStart`). After a start that failed, left-over records can go to worker
  channels nobody reads: draining never sticks exactly in runs without a failed start
  (`PipelineWitness.DrainsIffNoFailedStart`).
- The HTTP handlers cancel the context they pass to a switch as soon as it returns
  (`internal/adapters/handler/http/v1/modeHandler.go:42-45`), while the service still reports itself
  running. After that every fan-in reader can return, every worker can unless it idles on an empty channel
  of an earlier start, and every distributor can unless nobody is left to send it a record
  (`PipelineCancel.ReaderCanReturn`, `WorkerCanReturnIff`, `DistributorCanReturnIff`). Those others wait on
  the context of an earlier start, such a worker for good (`PipelineCancel.WaitingForever`,
  `PipelineWitness.SwitchLeavesWorkerWaiting`). Once all have returned or wait like that, nothing is
  delivered but what the result channel holds, until the next start (`PipelineCancel.CancelledHalt`,
  `PipelineCancel.HaltedDeliversNothing`). Without failed starts draining never sticks exactly in runs
  without a cancellation (`PipelineWitness.DrainsIffNoCancellation`).
- Switching modes three times on a started service panics: the switch back restarts adapters whose
  channels are closed and the next switch closes them again (`Lifecycle.ThirdSwitchPanics`).
- A switch and a `StopDataProcessing` can be stopping the same adapters at once
  (`Locks.AdaptersTouchedTogether`), and one of them panics exactly when both found the same adapter
  running (`StopRace.PanicIffOverlapped`; `StopRace.TwoStopsPanic` is such a race). A `StopDataProcessing`
  that completes inside a mode switch is undone by it (`Lifecycle.StopLostIff`). A `StartDataProcessing`
  that finds the service not running between a switch's stopping of the old family and its change of mode
  leaves that family running, inactive, exactly when one of its dials succeeds
  (`Lifecycle.StartInsideSwitchAgreesIff`).
- A stopped adapter can report itself healthy (`Reconnect.HealthyAfterStopIff`, with runs in
  `Reconnect.HealthyAfterStop`).
- A cross-exchange answer names the symbol and exchange a price was received for exactly when neither name
  holds a ':' (`Keys.NamesReportedIff`); nothing rejects names that do.
- The reported average can exceed the highest price or fall below the lowest
  (`PriceStats.AverageAtMostHighestIff`, `PriceStats.AverageAtLeastLowestIff`), and the synthetic
  exchange can publish a price of zero for a base price below 0.000000625
  (`TestMode.PricesPositiveIff`).

## Model

| member | source | states |
|---|---|---|
| Pipeline.ReachedIsWellShaped | internal/core/service/exchange/service.go:244-302 | over every run, every channel reference stays in range, no buffer exceeds its capacity, each distributor's index stays among its workers, and the channels of a start in progress are new and unread |
| PipelineConservation.StepConserves | internal/core/service/exchange/service.go:308-417 | each step of a reader, distributor, worker, consumer or start keeps every received record at exactly one place |
| PipelineConservation.Conservation | internal/core/service/exchange/service.go:308-417 | over every run with any number of starts and failed starts, each record received is at exactly one of: a hand, the aggregated buffer, a worker buffer of any start, the result buffer, the consumer, the timeout ledger, the cancel ledger; nothing else is anywhere |
| PipelineConservation.PayloadsAlwaysKept | internal/core/service/exchange/service.go:399-444 | over every run, a record is what was received until a worker takes it and its validated form afterwards |
| PipelineConservation.PublishedAsReceived | internal/core/service/exchange/service.go:420-444 | over every run, a record a worker holds or has published is the one received, but for a missing timestamp of a supported record with a price, which is that worker's clock when it took the record |
| PipelineConservation.DrainedDeliversEverything | internal/core/service/exchange/service.go:308-417 | a drained run without timeout or cancellation has delivered every received record exactly once, and nothing else |
| PipelineOrder.PublishedInInputOrder | internal/core/service/exchange/service.go:316-417 | over every run, what one worker publishes of one input through one distributor is a subsequence of that input, in order |
| PipelineOrder.SingleStartKeepsInputOrder | internal/core/service/exchange/service.go:316-417 | with at most one successful start, every worker publishes every input's records in input order |
| PipelineOrder.OneDistributorPerStart | internal/core/service/exchange/service.go:287-297 | a run has one distributor for each successful start |
| PipelineDispatch.AlwaysRoundRobin | internal/core/service/exchange/service.go:364-373 | over runs of any length, with starts replacing the pool meanwhile, the k-th dispatch a distributor resolves, by send or by timeout, is offered to the channel that was entry k mod N of the pool when the dispatch looked it up |
| PipelineDispatch.DispatchedRecordStays | internal/core/service/exchange/service.go:364-373 | over every run, the record of a dispatch is in the channel it was offered to, in that channel's worker's hand or output, or dropped by that worker, and among the timed out if it was not sent; it is in no other channel, hand or output |
| PipelineDispatch.ChannelHoldsDispatches | internal/core/service/exchange/service.go:364-373 | over every run, whatever is in a channel, its worker's hand or its output was sent to that channel by a logged dispatch |
| PipelineDispatch.DispatchBalanced | internal/core/service/exchange/service.go:364-370 | while a distributor finds the same pool, the dispatches offered to any two of its channels differ in number by at most one, from whichever dispatch on one counts |
| PipelineDispatch.OneStartRoundRobin | internal/core/service/exchange/service.go:350-373 | with one start dispatch k goes to channel k mod N, its record is in no other channel, hand or output, and the shares of all channels differ by at most one |
| PipelineWitness.OrderedIffOneStart | internal/core/service/exchange/service.go:89-127 | for every number of workers and all buffer sizes: all runs with at most n successful starts keep every worker's output in input order if and only if n is at most one |
| PipelineWitness.TwoStartsCanReverse | internal/core/service/exchange/service.go:350-373 | for every configuration, a run with two starts in which one worker publishes two records in reverse order, both left in one input that was closed before the second start |
| PipelineWitness.DrainsIffNoFailedStart | internal/core/service/exchange/service.go:266-285 | for every configuration: in all uncancelled runs with at most n failed starts, when nothing can move nothing is left upstream of the result channel, if and only if n is zero |
| PipelineWitness.FailedStartStrands | internal/core/service/exchange/service.go:266-285 | for every configuration, a run in which a record is left in an input that was closed, the next start fails and the record ends in a worker channel nobody reads: nothing can move, and every continuation keeps it |
| PipelineProgress.DrainingTerminates | internal/core/service/exchange/service.go:321-417 | without new arrivals and starts, the number of steps still possible is bounded by a stage-weighted count of undelivered records and live goroutines |
| PipelineProgress.CanMoveIffAttended | internal/core/service/exchange/service.go:329-410 | in an uncancelled run some record can move, even if the consumer never reads, exactly when a record upstream of the result channel is in an input, a hand, the aggregated channel or a channel with a worker |
| PipelineProgress.DrainingNeverSticks | internal/core/service/exchange/service.go:329-410 | with no start failed or in progress and no context cancelled, when no record can move none is left upstream of the result channel |
| PipelineProgress.StrandedForever | internal/core/service/exchange/service.go:266-285 | a record in a channel of a failed start stays there through every continuation |
| PipelineWitness.DrainsIffNoCancellation | internal/core/service/exchange/service.go:329-417 | for every configuration: in all runs without failed starts and with at most n cancellations, when nothing can move nothing is left upstream of the result channel, if and only if n is zero |
| PipelineCancel.ReaderCanReturn | internal/core/service/exchange/service.go:329-345 | with the current context cancelled every fan-in reader can return, whichever context it watches |
| PipelineCancel.WorkerCanReturnIff | internal/core/service/exchange/service.go:392-417 | with the current context cancelled and no start in progress a worker can return before the next one, if and only if it is not idle on an empty channel of an earlier start that no distributor is about to send to, watching a context that is not cancelled |
| PipelineCancel.WaitingForever | internal/core/service/exchange/service.go:266-273 | such a worker waits, its channel empty, through every continuation with any further starts and cancellations but that of the very context it watches |
| PipelineCancel.DistributorCanReturnIff | internal/core/service/exchange/service.go:354-380 | with the current context cancelled a distributor can return before the next start, if and only if it does not wait, on a context that is not cancelled, for a record of readers that are all finished |
| PipelineCancel.CancelledHalt | internal/core/service/exchange/service.go:329-417 | after a cancellation of the current context the pipeline can halt with the result channel and the consumer as they are: readers have returned, and so has everyone else except those workers and distributors |
| PipelineCancel.HaltedDeliversNothing | internal/core/service/exchange/service.go:329-417 | once halted only the content of the result channel is ever delivered and every other buffer keeps its records, until a start |
| PipelineWitness.SwitchLeavesWorkerWaiting | internal/adapters/handler/http/v1/modeHandler.go:42-45 | for every configuration, a run with a second start whose context is then cancelled and a worker of the first start that cannot return and waits for good unless the first context is cancelled |
| Locks.ProgramsAreHierarchical | internal/core/service/exchange/service.go:89-206 | every path of every call takes the mode lock before the run lock and releases what it holds |
| Locks.DeadlockFree | internal/core/service/exchange/service.go:480-505 | however many calls are in progress and however they interleave, while one is unfinished some call can take a step, writers blocking new readers included |
| Locks.CallsFinish | internal/core/service/exchange/service.go:89-206 | once no new call comes, every sequence of steps is as long as the operations it used up, so all calls finish |
| Locks.AlwaysExclusive | internal/core/service/exchange/service.go:20-36 | over every run a writer excludes writers and readers of its lock |
| Locks.AdaptersTouchedAcrossLocks | internal/core/service/exchange/service.go:89-206 | over every run, two calls stopping adapters at once hold different locks, a start and a stop of adapters overlap only when the stop is a switch's, and two starts never do |
| Locks.AdaptersTouchedTogether | internal/core/service/exchange/service.go:100-105 | both overlaps are reached: a switch stopping adapters while another call stops, or starts, them |
| StopRace.PanicIffOverlapped | internal/core/service/exchange/service.go:447-461 | over every interleaving of any number of stopping calls, one of them panics if and only if two found the same adapter running |
| StopRace.TwoStopsPanic | internal/core/service/exchange/service.go:447-461 | two callers stopping one running adapter reach an end in which they overlapped and one has panicked |
| StopRace.OneGetsThrough | internal/adapters/exchanges/live.go:64-85 | of the callers that found an adapter running one closes both its channels and every other panics there |
| Lifecycle.Adapter.Start | internal/adapters/exchanges/live.go:41-62 | start of a running adapter changes nothing; otherwise it runs, healthy, exactly when the dial succeeds |
| Lifecycle.Adapter.Stop | internal/adapters/exchanges/live.go:64-85 | stop of a running adapter closes its channels, and panics exactly when they were closed before |
| Lifecycle.ExchangeService.StartDataProcessing | internal/core/service/exchange/service.go:244-302 | the new state of service and adapters for every pattern of dial failures: a stopped service's active adapters run exactly if they ran or were dialled, those dialled are healthy, and it fails exactly when none runs afterwards; a running service is left alone |
| Lifecycle.ExchangeService.StopCurrentAdapters | internal/core/service/exchange/service.go:447-461 | stops the active family in order up to the first panic and leaves the other family alone |
| Lifecycle.ExchangeService.StopDataProcessing | internal/core/service/exchange/service.go:174-229 | the new state of service and adapters, or the panic; without a panic no active adapter of a running service runs afterwards and those that did are unhealthy with closed channels |
| Lifecycle.ExchangeService.SwitchToTestMode | internal/core/service/exchange/service.go:89-127 | without a panic mode and active family are the target's whether the service was running or not and whatever dials fail, the old family is stopped, the new one runs exactly if it ran or the service was running and its dial succeeded, and is untouched if the service was not running; the whole new state, restart failure and panic included |
| Lifecycle.ExchangeService.SwitchToLiveMode | internal/core/service/exchange/service.go:129-167 | without a panic mode and active family are the target's whether the service was running or not and whatever dials fail, the old family is stopped, the new one runs exactly if it ran or the service was running and its dial succeeded, and is untouched if the service was not running; the whole new state, restart failure and panic included |
| Lifecycle.CallKeepsAgreement | internal/core/service/exchange/service.go:89-302 | every call that does not panic keeps: inactive family stopped, service running exactly when an active adapter runs |
| Lifecycle.AlwaysAgrees | internal/core/service/exchange/service.go:89-302 | the same over every sequence of completed calls with arbitrary dial failures |
| Lifecycle.ModeIsLastTarget | internal/core/service/exchange/service.go:89-167 | over every sequence of completed calls the mode is the one last switched to |
| Lifecycle.StopPanicsIff | internal/adapters/exchanges/live.go:64-85 | from a service without restarted adapters no call panics, and stopping right after a call panics exactly when that call started an adapter that had been stopped |
| Lifecycle.OneShotRunsNeverPanic | internal/core/service/exchange/service.go:89-302 | as long as no stopped adapter is started again, no call of any sequence panics and the agreement holds |
| Lifecycle.ThirdSwitchPanics | internal/core/service/exchange/service.go:89-167 | with all dials succeeding, start, switch, switch back succeed and the next switch panics, for families of any size |
| Lifecycle.StopLostIff | internal/core/service/exchange/service.go:100-124 | a stop completing inside a switch, after any of its stages, is undone exactly when the switch finds an adapter to start, while both sequential orders leave the service stopped |
| Lifecycle.InsideStopChangesNothing | internal/core/service/exchange/service.go:89-167 | wherever in a switch a stop completes, the switch ends as if the stop had not been called |
| Lifecycle.StartInsideSwitchAgreesIff | internal/core/service/exchange/service.go:100-124 | a start completing inside a switch, after any of its stages, leaves mode, families and running flag in agreement exactly unless it finds the service not running between the stopping of the old family and the change of mode and one of its dials succeeds |
| Reconnect.AtMostOneReader | internal/adapters/exchanges/live.go:41-152 | over every interleaving of the statements of Start, Stop, readers and reconnector at most one reader is live, and a running adapter marked unhealthy has none |
| Reconnect.ChannelKeepsLineOrder | internal/adapters/exchanges/live.go:232-265 | the data channel carries connection after connection, each one's lines in order, none twice |
| Reconnect.EveryLineAccounted | internal/adapters/exchanges/live.go:114-152 | over every interleaving each parsed line is on the data channel, dropped, lost with a reader that found the channel closed, or in a reader's hand, as often as it was parsed |
| Reconnect.HealthyAfterStopIff | internal/adapters/exchanges/live.go:51-70 | a stopped adapter can come to report itself healthy exactly when Stop cleared the flag between a reconnection's checks and its setting of it, or between the two flag assignments of Start |
| Reconnect.HealthyAfterStop | internal/adapters/exchanges/live.go:51-70 | both ways are reached: a run to a Stop that clears the flag during a reconnection, and one during a start, after which the stopped adapter can report itself healthy |
| Keys.ParseTimeSeriesKey | internal/adapters/cache/redis.go:379-394 | the loop computes the specified split of the key |
| Keys.RoundTripIff | internal/adapters/cache/redis.go:379-394 | parsing undoes joining exactly for lists of colon-free parts whose last part is not empty |
| Keys.JoinOfSplit | internal/adapters/cache/redis.go:379-394 | joining the parse of any key gives the key less one trailing colon |
| Keys.SeriesKeyParts | internal/adapters/cache/redis.go:45 | a series key yields its symbol and exchange; with an empty exchange it has fewer than three parts |
| Keys.NamesReportedIff | internal/adapters/cache/redis.go:379-394 | a key matched by a colon-free symbol yields the symbol and the exchange it was made of exactly when neither holds a colon |
| Keys.LatestKeyNames | internal/adapters/cache/redis.go:33 | keys of latest records of colon-free symbols are the same only for the same symbol and exchange |
| Keys.LatestPrefixNames | internal/adapters/cache/redis.go:74 | the key pattern of a colon-free symbol matches exactly the latest keys of that symbol |
| CacheLog.UnitReadIff | internal/adapters/cache/redis.go:49-53 | a score is the stamp's time in seconds exactly for stamps in seconds up to 10^12 and in milliseconds above that, or zero |
| CacheLog.ReadIsLastRecord | internal/adapters/cache/redis.go:112-129 | the record read for a colon-free symbol and an exchange is the last one written for these names |
| Store.ZRangeByScore | internal/adapters/cache/redis.go:274-277 | a range reply lists the texts scored in the window once each, lowest score first |
| Store.TextMonotone | internal/adapters/cache/redis.go:55 | storing prices as six-decimal text keeps their order |
| Store.StoredNear | internal/adapters/cache/redis.go:55 | storing a price as text moves it by at most half a micro |
| Store.StoredExactIff | internal/adapters/cache/redis.go:55 | it leaves the price alone exactly when that is a whole number of micros |
| Cache.RedisAdapter.SetPrice | internal/adapters/cache/redis.go:31-69 | with cleanup commands arriving between its own: the tick's record is the last written under its key unless SET is refused, the tick is the one logged under its series key unless SET has no answer or ZADD is refused, the key is renewed after that if ZADD is answered, and nothing else is written; uninterrupted, a reader finds the tick with its score and the key lives two minutes more |
| Cache.RedisAdapter.CleanupOldData | internal/adapters/cache/redis.go:329-371 | with writes arriving between its commands: what each listed series held from second 0 up to the cutoff's second is gone after its trim and the rest kept, each listed record is read, each one read as too old is deleted, refused commands left out, and no other command is sent |
| Cache.RedisAdapter.GetLatestPrice | internal/adapters/cache/redis.go:72-109 | the last record written for the symbol and some exchange, by name: a stored readable one with the greatest raw timestamp among those with a positive one; an error exactly when there is none or the keys cannot be listed |
| Cache.RedisAdapter.GetLatestPriceByExchange | internal/adapters/cache/redis.go:112-129 | the last record written for that symbol and exchange, by name, while it is stored, or an error |
| Cache.RedisAdapter.GetPricesInRangeByExchange | internal/adapters/cache/redis.go:235-318 | the entries of the window's reply whose score lookup succeeds, and when it is an error |
| Cache.RedisAdapter.GetPricesInRange | internal/adapters/cache/redis.go:132-232 | the contributions of every live series key of the symbol, one after the other, failed keys and malformed keys left out |
| CacheRefinement.RunInvariant | internal/adapters/cache/redis.go:58-66 | over every timely interleaving of commands, with any failures, the store simulates the never-evicting index of the ticks logged since the key last expired: same scores, and what is gone is at least two minutes old |
| CacheRefinement.EvictionInvisibleExactly | internal/adapters/cache/redis.go:329-346 | over every timely interleaving, with any failures, all queries over at most 119 seconds read what a store without eviction would return, if and only if every text scored in that time was logged again since its key last expired |
| CacheRefinement.EvictionInvisible | internal/adapters/cache/redis.go:58-66 | they do when no tick is scored in the future and each renewal reaches the store before the key expires |
| CacheRefinement.EvictionInvisibleIff | internal/utils/period.go:84-87 | 119 seconds is exactly the longest period for which that holds |
| CacheRefinement.LateRenewalHidesFreshTick | internal/adapters/cache/redis.go:58-66 | a tick of any time since 1002 disappears at 1121 with the deadline of 1120 when its renewal fails, and also when every command succeeds but the renewal comes after the deadline |
| CacheRefinement.AlwaysSound | internal/adapters/cache/redis.go:58-63 | whatever failed and however the clock moved, a stored text carries the last score written for it |
| CacheRefinement.IndexIsLastTick | internal/adapters/cache/redis.go:55-63 | every indexed text is a logged tick carrying the last score written for that price |
| CacheRefinement.DeduplicationExactIff | internal/adapters/cache/redis.go:274-310 | the index answers every whole-second window ending at a given time with exactly the prices logged in it, if and only if no price logged by then was logged again later than that time or in an earlier second |
| CacheRefinement.InOrderIsEnough | internal/adapters/cache/redis.go:44-63 | ticks arriving in time order, none scored after the window, meet that condition |
| CacheRefinement.SecondStampsInWindow | internal/adapters/cache/redis.go:49-53 | a tick stamped in whole seconds and not in the future is never after the whole second a query ends in |
| CacheRefinement.SubSecondQuoteHidesTick | internal/adapters/cache/redis.go:49-53 | two millisecond ticks of one price, in order and not in the future, of which the window's own tick is not found |
| CacheRefinement.LatestReadIff | internal/adapters/cache/redis.go:33-42 | over every timely interleaving a latest record read is the last one written, and none is read exactly when it has expired or a cleanup that had read it, or an earlier one, as too old deleted it |
| CacheRefinement.FreshRecordMissingIff | internal/adapters/cache/redis.go:352-366 | the last record, neither expired nor stamped over two minutes ago, is missing exactly when it was written between a cleanup's read of an older record and the deletion that followed |
| CacheRefinement.CleanupDeletesFreshRecord | internal/adapters/cache/redis.go:352-366 | such a run exists |
| PriceStats.FindHighestPrice | internal/core/service/prices/prices.go:379-391 | the greatest price of the list, 0 for an empty list |
| PriceStats.FindLowestPrice | internal/core/service/prices/prices.go:393-405 | the least price of the list, 0 for an empty list |
| PriceStats.CalculateAveragePrice | internal/core/service/prices/prices.go:407-417 | the mean rounded to cents, 0 for an empty list |
| PriceStats.AverageBetween | internal/core/service/prices/prices.go:379-417 | the average is within half a cent of the mean and between the cent-rounded lowest and highest price |
| PriceStats.AverageAtMostHighestIff | internal/core/service/prices/prices.go:416 | for every list with a given highest price the average stays at or below it exactly when rounding that price to cents does not raise it |
| PriceStats.AverageAtLeastLowestIff | internal/core/service/prices/prices.go:416 | for every list with a given lowest price the average stays at or above it exactly when rounding that price to cents does not lower it |
| PriceStats.SubCentAverageIsZero | internal/core/service/prices/prices.go:416 | a single price below half a cent is reported as an average of zero, below the lowest price |
| PriceQueries.ReturnedIsLogged | internal/adapters/cache/redis.go:288-310 | every entry a query returns, whatever failed and whatever order ticks came in, carries the names asked for, a price within half a micro of a logged one, and the whole second of the last tick logged with that price |
| PriceQueries.FoundIsReturned | internal/adapters/cache/redis.go:288-310 | every text of the range whose score lookup succeeds is in the answer |
| PriceQueries.InterleavedReadIsSound | internal/adapters/cache/redis.go:274-310 | with any commands of writes and cleanups between the range read and a score lookup, every text read had been logged with a score in the range that was its last one then, and a score found for it is that of the last tick logged with it by the time of the lookup |
| PriceQueries.QueryMatchesLog | internal/adapters/cache/redis.go:235-318 | for a timely run, at most 119 seconds, nothing of that time lost to an expiry and no price re-quoted past the window, the prices returned are exactly the stored forms of the prices logged in it |
| PriceServices.PriceService.GetHighestPriceByExchange | internal/core/service/prices/prices.go:164-233 | under those conditions the stored form of the highest logged price of the period, within half a micro of it, an error exactly when nothing was logged; always within half a micro of a logged price |
| PriceServices.PriceService.GetLowestPriceByExchange | internal/core/service/prices/prices.go:274-308 | under those conditions the stored form of the lowest logged price of the period, within half a micro of it, an error exactly when nothing was logged; always within half a micro of a logged price |
| PriceServices.PriceService.GetAveragePriceByExchange | internal/core/service/prices/prices.go:342-375 | under those conditions the cent-rounded mean of the distinct stored prices logged in the period, within half a cent and half a micro of the mean of the logged prices taken one per text, an error exactly when nothing was logged; always the rounded mean of stored forms of logged prices |
| PriceQueries.AverageIsUnique | internal/core/service/prices/prices.go:407-417 | the log determines that average, whatever order the cache replies in |
| PriceServices.PriceService.GetHighestPrice | internal/core/service/prices/prices.go:107-161 | under those conditions for every exchange, with colon-free names, within half a micro of the highest price logged for the symbol, by name, an error exactly when nothing was logged; in any case the highest entry contributed by a live series key and within half a micro of a price logged under one |
| PriceServices.PriceService.GetLowestPrice | internal/core/service/prices/prices.go:236-271 | the same for the lowest price |
| PriceServices.PriceService.GetAveragePrice | internal/core/service/prices/prices.go:311-339 | under those conditions within half a cent and half a micro of the mean of the prices logged for the symbol, taken one per exchange and price text; in any case the rounded mean of the entries, an error exactly when there are none |
| PriceQueries.CrossMatchesLog | internal/adapters/cache/redis.go:132-232 | under those conditions for every exchange, with colon-free names, the prices of a cross-exchange answer are exactly the stored forms of the prices logged in the period on any exchange |
| PriceQueries.CrossHighestMatchesLog | internal/core/service/prices/prices.go:107-161 | so a price is the cross-exchange highest if and only if it is the highest stored form of all of them |
| PriceQueries.CrossLowestMatchesLog | internal/core/service/prices/prices.go:236-271 | and the lowest if and only if it is the lowest |
| PriceQueries.CrossAverageMatchesLog | internal/core/service/prices/prices.go:311-339 | and the cross-exchange average is the rounded mean over all pairs of an exchange and a price text logged there |
| PriceAccuracy.CrossHighestNear | internal/adapters/cache/redis.go:55 | a cross-exchange highest is within half a micro of the highest price logged for the symbol, and equals it when that is a whole number of micros |
| PriceAccuracy.CrossLowestNear | internal/adapters/cache/redis.go:55 | the same for the lowest |
| PriceAccuracy.CrossAverageNear | internal/core/service/prices/prices.go:407-417 | a cross-exchange average is within half a cent and half a micro of the mean of one logged price per exchange and price text |
| PriceAccuracy.AverageIsNear | internal/core/service/prices/prices.go:407-417 | the same for one exchange, taking one logged price per text |
| PriceQueries.LookupsCostNoPrice | internal/adapters/cache/redis.go:188-216 | failed score lookups leave the prices of a cross-exchange answer, and their total, as they are |
| PriceQueries.KeyPartIsExchange | internal/adapters/cache/redis.go:164-224 | without failed lookups one key contributes what the single-exchange query returns for its exchange |
| PriceQueries.NamelessExchangeSkipped | internal/adapters/cache/redis.go:167-171 | a key with an empty exchange name contributes nothing |
| PriceQueries.CrossHighest | internal/adapters/cache/redis.go:164-224 | the highest over all exchanges is the highest of the per-key highest prices |
| PriceQueries.CrossLowest | internal/adapters/cache/redis.go:164-224 | the lowest over all exchanges is the lowest of the per-key lowest prices |
| PriceQueries.CrossMean | internal/core/service/prices/prices.go:407-417 | the mean over all exchanges is the count-weighted mean of the per-key means |
| PriceAverages.AverageIsTickMeanIff | internal/core/service/prices/prices.go:407-417 | for given numbers of ticks per price text, the reported average is the rounded mean of all ticks whatever the prices, if and only if the numbers are all equal |
| PriceAverages.EqualCountsAgree | internal/core/service/prices/prices.go:407-417 | when every logged text of a window was logged equally often the reported average is the rounded mean of the stored prices of all its ticks |
| PriceQueries.EstimateInWindow | internal/adapters/cache/redis.go:205-213 | estimated scores stay in the window and do not decrease with position |
| PriceQueries.EstimateSpacing | internal/adapters/cache/redis.go:205-213 | the first estimate is the window's start, the last its end, and they are evenly spaced |
| PriceQueries.EntryOfKey | internal/adapters/cache/redis.go:193-224 | one key contributes, for each text of its reply in order, its price and names and the whole second of its score, or, if that lookup failed, of a time as far into the window as the text is into the reply |
| PriceQueries.CrossTimestampsInWindow | internal/adapters/cache/redis.go:155-221 | every timestamp of a cross-exchange answer lies in the whole seconds of the query, looked up or estimated |
| Provenance.EveryAnswerWasReceived | internal/server/server.go:237-268 | whatever the pipeline dropped and the cache evicted, a price returned for one exchange is the stored form of a price some adapter delivered for that symbol and exchange |
| Provenance.EveryCrossAnswerWasReceived | internal/server/server.go:237-268 | the same for every entry of a cross-exchange answer, estimated timestamps included, for the series key it was received under; the entry carries the received symbol and exchange exactly when neither holds a colon |
| Provenance.EveryLatestWasReceived | internal/server/server.go:237-268 | a latest record read carries symbol, price and exchange as some adapter delivered them |
| Rounding.RoundToNearest | test-mode/main.go:438-449 | rounding lands on the grid, at most half a step away, and leaves exactly the grid points alone |
| TestMode.RoundPriceMonotone | test-mode/main.go:438-449 | tiered rounding keeps order, across the borders at 10 and 1000 too |
| TestMode.RoundPriceIdempotent | test-mode/main.go:438-449 | rounding a rounded price changes nothing, even when it crosses a border |
| TestMode.RoundPriceError | test-mode/main.go:438-449 | tiered rounding is off by at most half a grid step of its tier |
| TestMode.SymbolData.GenerateNextPrice | test-mode/main.go:390-435 | the price and the trend computed from the draws; the current price is left for the second critical section |
| TestMode.OneDraw | test-mode/main.go:403-432 | whatever the current price, the trend stays a sign, the price before the repair is within 20% of the base so the repair is never taken, and the published price is a rounded price of that band or such a price moved by a factor in [0.95, 1.05) |
| TestMode.DrawsDecide | test-mode/main.go:398-432 | which draws turn the trend and which apply the event, and the resulting trend and price in terms of current price, base and draws |
| TestMode.StoredIsPublished | test-mode/main.go:360-376 | over every interleaving every stored price is published and the current price is the last one |
| TestMode.WalkStaysSafe | test-mode/main.go:360-376 | the same over every interleaving of any number of servers, computed prices stored late and overwriting each other included |
| TestMode.PricesPositiveIff | test-mode/main.go:403-432 | every price published over a base price is positive exactly when the base price is at least 0.000000625 |

## Left out

- PipelineConservation.StepConserves: goroutine loops are unrolled into steps on values instead of methods over shared channels, because an unbounded loop that yields between channel operations has no terminating method form; sharing of channels appears as lane numbers.
- PipelineConservation.Conservation: runs end at `StopDataProcessing`; consuming after a stop is not modelled, since the consumer keeps reading the channel that the stop replaced.
- Lifecycle.ExchangeService.StopDataProcessing: contexts, the bounded wait for goroutines and the replacement of the channels are not in the state of the object.
- Reconnect.AtMostOneReader: covers one start of an adapter, and one Stop; starting a stopped adapter again is covered by the panic results in `Lifecycle.dfy`, overlapping stops by `StopRace.dfy`.
- Cache.RedisAdapter.GetPricesInRange: a query reads one state of the store; for commands of writes and cleanups between its own only soundness is stated, as `PriceQueries.InterleavedReadIsSound`.
- Cache.RedisAdapter.GetPricesInRangeByExchange: the same; existence, range and scores are read from one state.
- Cache.RedisAdapter.GetLatestPrice: which record is read is stated by name for runs whose symbols hold no ':'; and the same as above, the listed keys are read from one state.
- CacheRefinement.EvictionInvisibleExactly: expiry times are exact, not cut to milliseconds.
- PriceStats.AverageBetween: exact arithmetic; accumulation error of floating point sums is not modelled.
- Store.ZRangeByScore: members of equal score come in any order, where the store orders them by text.
- Price parsing, JSON, infinite and not-a-number prices: foreign code; a stored record is read back as written or not at all.
- `validateSymbol` and `validateExchange`: case folding and two constant tables; queries take the normalised names.
- `ParsePeriod` and `FormatPeriod`: a table and Go's duration syntax.
- HTTP handlers, health classification, configuration, TCP and database clients, `internal/adapters/exchanges/test.go` (the same adapter under another name), the client map of the synthetic exchange.
