# PredSX verification

PredSX is a pipeline that ingests prediction-market trades and order books, aggregates them and serves them over
HTTP and WebSocket.  This project models its hand-written state machines in Dafny and proves what they keep over
whole runs.

Each machine appears twice. A value-level transition function (`State`, `Next`, `Run`) describes one atomic step and
runs over arbitrary sequences of steps; the theorems are about these runs, so they hold for every schedule, every
pattern of failures and every input. A class or a method in the program's own imperative form is then proved equal,
call by call, to that transition function.

| file | what it models |
|---|---|
| `WsProtocol.dfy`, `Hub.dfy` | the WebSocket hub, its clients' bounded queues, and the write pump |
| `RateLimit.dfy` | the INCR/EXPIRE request limiter |
| `StreamWorker.dfy`, `StreamRuns.dfy` | the subscribe/reconnect protocol between two goroutines that share a worker |
| `RpcRotator.dfy` | round-robin over RPC endpoints with cooldowns |
| `BlockPoller.dfy` | the block cursor of the polling indexer and its two error counters |
| `Aggregator.dfy`, `AggregatorRuns.dfy`, `MarketRows.dfy` | one-second and one-minute buckets, swapped out by two timers |
| `Orderbook.dfy` | snapshot and delta order books and the ten best levels |
| `PriceEngine.dfy` | the 24-hour volume kept over a queue of trades |
| `Ema.dfy` | the six-decimal moving average and the momentum signal |
| `RankedPages.dfy`, `Cursor.dfy`, `Decimal.dfy` | the ranked market list, its filler rows and its opaque cursors |
| `Common.dfy` | what these modules share |
| `MarketIndex.dfy` | the lookup indexes written by two crawlers at once, and the two resolvers |

Conventions. Prices, sizes and volumes are exact reals, times are integers, and clocks never run backwards.
Goroutines are interleaved atomic steps; where the program takes no lock, every single read and write is a step of
its own. Integer widths are written out where they matter: block numbers are 64-bit words, trade counts wrap at
2^32, cursors carry 64-bit offsets. Random and external outcomes (a failed write, a lost EXPIRE, a header error, the
order in which a map is walked) are step parameters or arbitrary choices, so the theorems cover all of them.
Write-only `ghost` histories record what was sent, announced, fetched or answered.

Where the code and its own description differ, the model follows the code:

- The limiter calls itself a sliding window (`predsx/services/api/middleware/ratelimit.go:18`). It is a fixed window
  started by the first hit: intervals shorter than a minute can admit any number up to 119 and no more
  (`AttainedIff`), and more than 60 exactly when two successive lives of the counter share them (`OverSixtyIff`,
  `OverSixtyRestarts`). If the one EXPIRE of a counter is lost, or the reply to its first INCR, the key stays refused
  for good (`LostExpiryLocksOut`, `RecoversIffExpirySet`, `LockoutIsReachable`).
- A chunk capped "at 40 blocks" holds 41 (`predsx/services/ingestion/main.go:482-489`).
- When every endpoint is benched, `pick` returns the entry at `idx` without advancing, although its comment speaks of
  the next one in line (`predsx/services/ingestion/main.go:381-383`).
- A first chain head below 5 wraps the unsigned cursor around, and a first head of 5 leaves it at 0, which the next
  tick takes for unset (`predsx/services/ingestion/main.go:475-477`): `EarlyHeadStalls`, `FiveSkips`. Coverage is
  guaranteed exactly for heads above 5, or 5 with a successful first log request (`CoversIff`).
- The initial subscription of a connection is not always its first message: the unlocked writes in `connect`
  (`predsx/services/ingestion/main.go:214-215`) let a single-token subscribe overtake it
  (`InitialSubscriptionMayComeLate`). `InitialFirstIff` says exactly when, and `CalmRunsGreetFirst` that it takes an
  `AddToken` overlapping those writes. No token is lost by that (`AllTokensAnnounced`).
- Following cursors reads the whole ranking exactly when the rows queried for each page hold it (`TraversalIff`).
  Where they do not (`ShortPageSkips`), a short ranked page is filled up from another table and the offset still
  advances by a whole page (`predsx/services/api/handlers/rest.go:77-89`). Beyond the ranking all pages are the same
  fillers, so markets repeat across pages and there may always be more (`BeyondTheRanking`).
- The fillers do not remember an empty market id (`predsx/services/api/handlers/rest.go:186-191`), so that id alone
  can be on a page twice (`DistinctPageIff`, `DistinctIff`, `EmptyIdTwice`).
- A row without volume is flushed with the average 0, inside its candle or not
  (`predsx/services/ingestion/main.go:674-677`): `AverageInsideCandle`.

## Model

| member | source | states |
|---|---|---|
| WsProtocol.HubSafety | predsx/services/api/ws/hub.go:44-87 | in every interleaving of hub and pump no closed queue is sent to or closed again, no inner drain meets an empty queue, a client is in the set exactly while registered with an open queue, and the queue holds at most 256 messages |
| WsProtocol.StepIsSafe | predsx/services/api/ws/hub.go:51-84 | each single step, by hub or pump, preserves that safety invariant |
| WsProtocol.ExactDelivery | predsx/services/api/ws/hub.go:60-84 | what is enqueued for a client is, in order and without gaps or repeats, exactly the broadcasts that matched its filter of the moment between its registration and its removal; removal happens only by unregistering or with 256 unread messages |
| WsProtocol.RemovedByFirst | predsx/services/api/ws/hub.go:54-84 | a member is removed by the first step that unregisters it or meets its full queue with a matching broadcast, and by no other |
| WsProtocol.MatchesIff | predsx/services/api/ws/hub.go:60-75 | a filter lets through what is addressed to all and what is addressed to a market it names; one that names none lets everything through |
| WsProtocol.StillMember | predsx/services/api/ws/hub.go:70-84 | the step of a member either extends the exact delivery or is the removal |
| WsProtocol.StayRemoved | predsx/services/api/ws/hub.go:54-59 | after removal nothing more is enqueued and the client does not come back |
| WsProtocol.Untouched | predsx/services/api/ws/hub.go:51-53 | before its register step a client receives nothing |
| WsProtocol.SplitPieces | predsx/services/api/ws/client.go:104-108 | the frame splitter is the inverse of joining with newlines and yields newline-free pieces |
| WsProtocol.SplitAppend | predsx/services/api/ws/client.go:105-108 | writing a newline and one more newline-free message adds exactly that message to the split frame |
| WsProtocol.PumpKeepsMessages | predsx/services/api/ws/client.go:89-112 | each pump action moves messages from queue to frame to network without losing, repeating or reordering any; that it does move them is `NextFrame` |
| WsProtocol.NextFrame | predsx/services/api/ws/client.go:89-112 | from the moment the queue's length is read, the pump writes the message taken and all then queued as one frame joined by newlines, however the hub interferes; what is enqueued meanwhile is exactly what the queue then holds, for the next frame |
| WsProtocol.BatchIsWritten | predsx/services/api/ws/client.go:89-112 | undisturbed, a waiting pump with n messages queued writes them as one frame in n + 2 actions, and waits again with an empty queue |
| WsProtocol.NothingQueued | predsx/services/api/ws/client.go:90-95 | with nothing queued the pump waits while the queue is open, and sends a close frame and stops once it is closed |
| WsProtocol.EventuallyDelivered | predsx/services/api/ws/client.go:82-119 | after any run without failing I/O and 260 undisturbed actions of the pump, the frames split into all messages enqueued, and a closed queue has had its close frame |
| WsProtocol.OnlyFailuresBreak | predsx/services/api/ws/client.go:99-117 | without a failed write or ping no pump ends without its close frame |
| WsProtocol.NothingAfterFailure | predsx/services/api/ws/client.go:99-117 | after a failed write or ping the pump has stopped and, whatever happens, writes nothing more |
| WsProtocol.StepRecovers | predsx/services/api/ws/client.go:82-119 | every hub or pump step preserves the recovery invariant |
| WsProtocol.FramesRecoverMessages | predsx/services/api/ws/client.go:82-119 | in every interleaving the written frames split at newlines into a prefix of what was enqueued; without a write error nothing is missing between frames, frame under construction and queue; the close frame follows every enqueued message; that all of it gets written is `EventuallyDelivered` |
| HubLoop.Client.Close | predsx/services/api/ws/hub.go:57 | closing an open queue closes it, closing a closed one would panic |
| HubLoop.Client.Write | predsx/services/api/ws/client.go:89-112 | one atomic action of the write pump is the pump step whose progress `NextFrame`, `BatchIsWritten` and `EventuallyDelivered` state |
| HubLoop.Client.Tick | predsx/services/api/ws/client.go:113-117 | a failed ping ends the pump, a successful one changes nothing |
| HubLoop.Hub.Register | predsx/services/api/ws/hub.go:51-53 | registering is the register step of that client and changes nothing the hub holds of any other |
| HubLoop.Hub.Unregister | predsx/services/api/ws/hub.go:54-59 | a member is removed and its queue closed; a client already dropped is left alone |
| HubLoop.Hub.Subscribe | predsx/services/api/ws/hub.go:60-69 | a member's filter becomes the nonempty ids given |
| HubLoop.Hub.Broadcast | predsx/services/api/ws/hub.go:70-84 | visiting members in any order and dropping slow ones on the way, each ends exactly as if it were alone in the hub |
| HubLoop.Hub.Run | predsx/services/api/ws/hub.go:44-87 | under any schedule each client goes through exactly the run of its own steps, whatever the others do |
| HubLoop.Hub.Serve | predsx/services/api/ws/hub.go:44-87 | from an empty hub, any schedule meets the safety, exact-delivery and frame-recovery theorems for every client at once, and one that ends with 260 undisturbed successful actions of a pump leaves all its messages written, with a close frame if its queue was closed |
| RateLimit.RunIsConsistent | predsx/services/api/middleware/ratelimit.go:29-36 | the counter invariant (lives in order, a window apart, one EXPIRE owed at most) holds over every interleaving of INCRs and EXPIREs |
| RateLimit.LifeEndsOnTime | predsx/services/api/middleware/ratelimit.go:34-36 | if the EXPIRE owed by the first hit of a life lands at t, every answer of that life comes before t + 60 s, however many requests are refused |
| RateLimit.NextStartsAnew | predsx/services/api/middleware/ratelimit.go:29-51 | the first request counted at t + 60 s or later has count 1 in the next life and, if replied to, is admitted with 59 remaining |
| RateLimit.AdmissionBounds | predsx/services/api/middleware/ratelimit.go:29-51 | each life of the counter admits at most 60 counted requests and each interval shorter than 60 s at most 119, even if EXPIREs come late or never and INCR replies are lost |
| RateLimit.AtMostTwoLives | predsx/services/api/middleware/ratelimit.go:34-36 | an interval shorter than a window meets one life of the counter, or two but not the first hit of the earlier |
| RateLimit.OneLifeBound | predsx/services/api/middleware/ratelimit.go:29-50 | an interval of any length all of whose answers belong to one life admits at most 60 |
| RateLimit.OverSixtyRestarts | predsx/services/api/middleware/ratelimit.go:29-50 | an interval that admits more than 60 has a restart of the counter inside it, after another admitted request |
| RateLimit.OverSixtyIff | predsx/services/api/middleware/ratelimit.go:29-50 | an interval shorter than a minute admits more than 60 if and only if two successive lives admit more than 60 in it together |
| RateLimit.AdmittedByCounts | predsx/services/api/middleware/ratelimit.go:29-50 | in an interval a life admits the difference of its counter at the end and before the start, each cut off at 60, if no reply is lost |
| RateLimit.OverSixtyByCounts | predsx/services/api/middleware/ratelimit.go:29-50 | without lost replies an interval shorter than a minute admits more than 60 if and only if the counters of two successive lives gain more than 60 in it, each value cut off at 60 |
| RateLimit.EveryHitIsAnswered | predsx/services/api/middleware/ratelimit.go:29-51 | each request the store counted gets exactly one answer, at its own time, and is refused exactly when its count is known and above 60 |
| RateLimit.CountsAreNumbers | predsx/services/api/middleware/ratelimit.go:29 | the count a request gets is its number among those the store counted in the life of the counter, including those whose reply was lost |
| RateLimit.RemainingIsHonest | predsx/services/api/middleware/ratelimit.go:38-43 | the advertised remaining count never grows within a life, is zero on refusal, and of the requests of that life counted from then on exactly that many are admitted |
| RateLimit.BurstIsAdmitted | predsx/services/api/middleware/ratelimit.go:18-36 | for every k up to 59, k late hits of one life and a restart let k + 60 requests through within one millisecond: the window does not slide |
| RateLimit.AttainedIff | predsx/services/api/middleware/ratelimit.go:29-50 | some run admits exactly n requests in some interval shorter than a minute if and only if n is at most 119 |
| RateLimit.ManyWindows | predsx/services/api/middleware/ratelimit.go:29-51 | an interval shorter than m minutes admits at most 60 (m + 1) - 1 counted requests, for every m and every interleaving |
| RateLimit.ManyWindowsAttained | predsx/services/api/middleware/ratelimit.go:29-51 | for every m some run reaches that number in an interval shorter than m minutes |
| RateLimit.LostExpiryLocksOut | predsx/services/api/middleware/ratelimit.go:34-36 | a counter at the limit without an expiry, and with none on its way, admits no later request whose count it learns |
| RateLimit.RecoversIffExpirySet | predsx/services/api/middleware/ratelimit.go:34-50 | a counter at the limit ever admits again if and only if an expiry was set on it |
| RateLimit.LockoutIsReachable | predsx/services/api/middleware/ratelimit.go:29-36 | two runs from an absent key that lock it out: 60 hits whose EXPIRE is lost, and 59 hits after a first INCR whose reply is lost |
| RateLimit.Limiter.Incr | predsx/services/api/middleware/ratelimit.go:29 | INCR counts from one on a missing or expired key and keeps the expiry |
| RateLimit.Limiter.Handle | predsx/services/api/middleware/ratelimit.go:24-51 | one request is one step: counted and decided, or let through when INCR fails, whether or not the store had applied it; a refusal leaves the expiry as it is |
| RateLimit.Limiter.ExpireLands | predsx/services/api/middleware/ratelimit.go:34-36 | the EXPIRE of a first hit gives the key 60 s from when it lands |
| StreamWorkers.AllTokensAnnounced | predsx/services/ingestion/main.go:173-268 | in every interleaving of `AddToken` with disconnects and reconnects, including the unlocked writes, whenever the mutex is free and `connect` is not between publishing and subscribing a client, a write on the current connection failed or it was told every token, took an initial subscription and is marked subscribed; at most one write by the adder per token |
| StreamWorkers.StepKeepsInv | predsx/services/ingestion/main.go:208-268 | each atomic read, write, lock or unlock of either goroutine preserves the protocol invariant |
| StreamWorkers.TokensGrow | predsx/services/ingestion/main.go:246-251 | the token set only grows |
| StreamWorkers.AddTokenIsAtomic | predsx/services/ingestion/main.go:246-268 | the adder's steps run without interference are one `AddToken`; doing it again sends and changes nothing |
| StreamWorkers.ConnectIsAtomic | predsx/services/ingestion/main.go:208-222 | the connector's steps run without interference are one `connect` |
| StreamRuns.InitialSubscriptionMayComeLate | predsx/services/ingestion/main.go:214-215 | a reachable state in which a connection's only announcement is a single token, though no write failed |
| StreamRuns.InitialFirstIff | predsx/services/ingestion/main.go:208-268 | over any run, some connection is told a token before its initial subscription if and only if the adder, past its test of `subscribed`, reads a client that `connect` has published but nobody has subscribed (or whose subscription failed), and its next step writes successfully |
| StreamRuns.CalmRunsGreetFirst | predsx/services/ingestion/main.go:208-222 | if no `AddToken` ever overlaps the two unlocked writes of `connect`, every connection gets its initial subscription first |
| StreamRuns.GreetedIff | predsx/services/ingestion/main.go:224-244 | a connection counts as greeted if and only if some step sent it an initial subscription successfully |
| StreamRuns.MarkMayBeStale | predsx/services/ingestion/main.go:208-256 | a run that ends marked subscribed on a connection that never took an initial subscription |
| StreamWorkers.StreamWorker.WriteMessage | predsx/services/ingestion/main.go:240-264 | a successful write announces its tokens on that connection, a failed one marks it |
| StreamWorkers.StreamWorker.SendInitialSubscriptionLocked | predsx/services/ingestion/main.go:224-244 | sends all tokens to the current client, if there are both, and reports success |
| StreamWorkers.StreamWorker.AddToken | predsx/services/ingestion/main.go:246-268 | a new token is added and announced alone or with all others, depending on `subscribed`; a known one changes nothing |
| StreamWorkers.StreamWorker.Connect | predsx/services/ingestion/main.go:208-222 | an undisturbed connect publishes the new client, subscribes it and sets `subscribed` by the outcome; after a successful one every token has been announced |
| RpcRotation.Scan | predsx/services/ingestion/main.go:374-380 | the first unbenched position in cyclic order, everything before it being benched |
| RpcRotation.PickAt | predsx/services/ingestion/main.go:370-384 | a pick yields a pool member and scans at least one and at most all entries |
| RpcRotation.Fairness | predsx/services/ingestion/main.go:370-384 | between two regular picks of one pool entry, every entry unbenched throughout was picked as well |
| RpcRotation.FallbackMeansAllBenched | predsx/services/ingestion/main.go:377-383 | the fallback is taken if and only if the whole pool is benched; otherwise the pick is unbenched |
| RpcRotation.DeadlinesAreNear | predsx/services/ingestion/main.go:388-411 | a bench deadline is never more than two minutes ahead |
| RpcRotation.DeadlinesGrow | predsx/services/ingestion/main.go:388-392 | a bench deadline is never withdrawn or moved earlier |
| RpcRotation.CooldownRespected | predsx/services/ingestion/main.go:402-415 | an endpoint whose cycle failed at t is not picked up to t + 2 min unless the whole pool is benched at that pick |
| RpcRotation.FailedEndpointRests | predsx/services/ingestion/main.go:402-415 | an endpoint picked last before a failed cycle is not picked again up to two minutes after the failure unless the whole pool is benched |
| RpcRotation.BenchedByFailure | predsx/services/ingestion/main.go:407-411 | a bench deadline is two minutes after a failed cycle of that very endpoint |
| RpcRotation.RpcRotator.Pick | predsx/services/ingestion/main.go:370-384 | the scan over `idx` modulo the pool size is the unbounded rotation; with everything benched `idx` comes back to where it was |
| RpcRotation.RpcRotator.Bench | predsx/services/ingestion/main.go:388-392 | a bench makes that endpoint unavailable up to its deadline and no other; it is the failed-cycle step for the last pick, and moves no deadline earlier while none lies further ahead |
| RpcRotation.RpcRotator.Turn | predsx/services/ingestion/main.go:406-413 | one turn of the indexer loop: pick, and bench what was picked if its cycle failed |
| BlockPolling.CoversContiguously | predsx/services/ingestion/main.go:474-517 | if the first head is above 5, or is 5 and its log request succeeds, then under any later errors and heads that move either way the fetched ranges run without gap or overlap from five blocks below that head to the cursor, 41 blocks at most each and never beyond the highest head seen |
| BlockPolling.CoversIff | predsx/services/ingestion/main.go:474-517 | every continuation of a first head leaves contiguous ranges from five blocks below it if and only if that head is above 5, or is 5 and its log request succeeds; otherwise some continuation misses blocks or fetches none |
| BlockPolling.FiveStartsAnew | predsx/services/ingestion/main.go:475-477 | after a first head of 5 whose log request fails, and any header errors before it, the next head starts the cycle anew |
| BlockPolling.FiveSkips | predsx/services/ingestion/main.go:475-477 | a first head of 5 whose request fails, then a head of 100: blocks 96 to 100 are fetched and none below |
| BlockPolling.BlocksFetchedOnce | predsx/services/ingestion/main.go:485-517 | a block is in a fetched range if and only if it lies between start and cursor, and ranges are disjoint and in order |
| BlockPolling.RequestsAreMaximal | predsx/services/ingestion/main.go:485-489 | each request takes everything up to the head or a full chunk |
| BlockPolling.CatchesUp | predsx/services/ingestion/main.go:478-517 | with the head fixed at h, as long as polling goes on, k healthy ticks bring the cursor to min(h, lastBlock + 41 k) by min(k, ceil((h - lastBlock) / 41)) requests, so it reaches h exactly from ceil((h - lastBlock) / 41) healthy ticks on |
| BlockPolling.EverySuccessCounts | predsx/services/ingestion/main.go:502-517 | the ranges fetched by an unfailed cycle are as many as its ticks that make a request and succeed |
| BlockPolling.LagNeverGrows | predsx/services/ingestion/main.go:485-517 | if the head advances at most 41 blocks between successful requests, the distance left never grows |
| BlockPolling.CountersAreExact | predsx/services/ingestion/main.go:464-512 | the header counter is the number of header errors in a row, the log counter that of log failures since the last log success |
| BlockPolling.FailsOnStrike | predsx/services/ingestion/main.go:464-511 | a tick ends the cycle if and only if it is a third header error in a row or a third log failure with no log success between |
| BlockPolling.GivesUpOnThirdStrike | predsx/services/ingestion/main.go:459-518 | polling has returned an error if and only if some prefix of its ticks ends in such a third strike |
| BlockPolling.EarlyHeadStalls | predsx/services/ingestion/main.go:475-480 | a first head below 5, after any header errors the cycle survives, wraps the cursor to just below 2^64, and nothing is fetched while heads stay below it |
| BlockPolling.CyclesIff | predsx/services/ingestion/main.go:402-416 | over any sequence of cycles with starts that do not move back, no block up to the highest cursor is skipped if and only if each cycle starts at or below what was reached before it, and none is fetched in two cycles if and only if each that fetches starts at or above that |
| BlockPolling.Poll | predsx/services/ingestion/main.go:448-519 | the polling loop computes the run of its ticks and stops at the tick on which it gives up |
| Aggregation.TruncateFloors | predsx/services/ingestion/main.go:634 | truncation finds the one window a time lies in |
| Aggregation.MinuteOfSecond | predsx/services/ingestion/main.go:626-634 | truncating to the second and then to the minute is truncating to the minute |
| Aggregation.KeyInjective | predsx/services/ingestion/main.go:635 | the text key `market:unix` never merges two different market and window pairs, even if ids contain colons |
| Aggregation.BucketsAreCandles | predsx/services/ingestion/main.go:633-651 | a bucket exists exactly for windows with trades, and its fields are open, high, low, close, count, volume and weighted sum of exactly those trades |
| Aggregation.EveryBucketIsACandle | predsx/services/ingestion/main.go:633-651 | every bucket that is there is the candle of one market's trades in one window |
| Aggregation.MinuteFromSeconds | predsx/services/ingestion/main.go:625-651 | merging a minute's one-second buckets gives its one-minute bucket, exactly when trades come in second order, and in all but open and close for any order |
| Aggregation.SecondHasItsMinute | predsx/services/ingestion/main.go:626-634 | every trade's one-second bucket has its one-minute bucket, at the second's window truncated again, and both are candles of it |
| Aggregation.AverageInsideCandle | predsx/services/ingestion/main.go:674-677 | for nonnegative sizes open and close lie between low and high, and the flushed average does if and only if some size is positive or zero lies there too (a row without volume carries 0) |
| Aggregation.AverageIsWeighted | predsx/services/ingestion/main.go:674-677 | the flushed average times the volume of the trades is their weighted sum, and it is 0 without positive volume |
| Aggregation.PositiveVolume | predsx/services/ingestion/main.go:675 | for nonnegative sizes the volume is positive if and only if some trade has positive size |
| AggregatorRuns.GenerationsPartition | predsx/services/ingestion/main.go:577-630 | for each timer every consumed trade is in exactly one generation, in order |
| AggregatorRuns.FlushedGenerations | predsx/services/ingestion/main.go:585-628 | each swapped-out map, and the one left, is built from exactly one generation of its timer, in any interleaving |
| AggregatorRuns.FlushedAverages | predsx/services/ingestion/main.go:585-678 | in any interleaving, for nonnegative sizes, every one-second row swapped out is an ordered candle with its average inside, if and only if it has volume or zero lies inside |
| AggregatorRuns.TotalWithout | predsx/services/ingestion/main.go:669-678 | sums over a map of buckets do not depend on the order it is walked in |
| AggregatorRuns.NothingLostOrCountedTwice | predsx/services/ingestion/main.go:577-651 | over any run, counts (to the counter's width), volumes and weighted sums of everything swapped out plus what is left are those of all consumed trades, for each granularity |
| MarketRows.MinuteRowsAgree | predsx/services/ingestion/main.go:577-651 | in any interleaving, per market and minute, over everything swapped out and what is left: the one-second rows of the minute and its one-minute rows have the same count (to the counter's width), volume, weighted sum, highest high and lowest low, those of the trades consumed, wherever the swaps cut the window |
| MarketRows.RowsAccount | predsx/services/ingestion/main.go:585-607 | the rows of one key over all generations sum to the trades of that market and window, cover every price, and take their bounds from prices |
| MarketRows.Extremes | predsx/services/ingestion/main.go:644-649 | the highest and lowest values of such rows are the highest and lowest prices of the trades |
| AggregatorRuns.MetricBucket.Record | predsx/services/ingestion/main.go:641-650 | recording a trade in a mutable bucket adds it to the bucket's value |
| AggregatorRuns.UpdateBucket | predsx/services/ingestion/main.go:633-651 | updating a map of mutable buckets in place is the update of the map of values; no two keys come to share a bucket |
| AggregatorRuns.UpdateBoth | predsx/services/ingestion/main.go:626-627 | one trade updates both granularities and neither disturbs the other |
| AggregatorRuns.Aggregator.Consume | predsx/services/ingestion/main.go:621-628 | consuming a trade updates both current maps |
| AggregatorRuns.Aggregator.SwapSeconds | predsx/services/ingestion/main.go:585-588 | the one-second timer takes the current map, leaves an empty one, and shares no bucket with what is still updated |
| AggregatorRuns.Aggregator.SwapMinutes | predsx/services/ingestion/main.go:603-606 | the one-minute timer does the same for its own map |
| AggregatorRuns.Aggregator.ConsumeApart | predsx/services/ingestion/main.go:585-628 | consuming a trade changes no bucket of any map swapped out before |
| AggregatorRuns.Aggregator.RunAll | predsx/services/ingestion/main.go:577-630 | after any interleaving of trades and swaps on the mutable buckets, every map swapped out still holds, at the end, what the run of the model flushed: the flusher reads it unlocked and unchanged |
| Orderbooks.BookHoldsLastSizes | predsx/services/processor/main.go:213-220 | after any run of messages a side maps a price to the last size text given for it since the latest snapshot, and lacks it if none was given or that text is "0" or "0.0" |
| Orderbooks.RunIsSince | predsx/services/processor/main.go:215-220 | the book is determined by the levels since the latest snapshot alone |
| Orderbooks.ApplyLevels | predsx/services/processor/main.go:500-518 | applies a list of levels in order, skipping malformed entries |
| Orderbooks.SortKeys | predsx/services/processor/main.go:525-532 | sorts in place: a permutation, best price first by number |
| Orderbooks.CollectKeys | predsx/services/processor/main.go:521-524 | every key once, in whatever order the map is walked |
| Orderbooks.GetTopLevels | predsx/services/processor/main.go:520-541 | min(limit, levels) distinct levels with the book's sizes, best first, and no unpublished level better than a published one |
| Orderbooks.FirstIsBest | predsx/services/processor/main.go:230-235 | the published best bid is the numeric maximum and the best ask the numeric minimum of the whole side |
| Orderbooks.Orderbook.Handle | predsx/services/processor/main.go:213-240 | a message updates both sides and publishes the top ten of each with their first prices |
| Orderbooks.Orderbook.HandleAll | predsx/services/processor/main.go:140-242 | after any run of messages the book is the run's, and the last update shows the top of it |
| PriceEngine.HistoryIsArrived | predsx/services/processor/main.go:286-288 | every trade is taken in once, in order, with its notional |
| PriceEngine.CarriesLast | predsx/services/processor/main.go:284-349 | the state carries the bid and ask of the last two-sided book and the price of the last trade |
| PriceEngine.WindowIsExact | predsx/services/processor/main.go:284-298 | after every trade the queue is exactly the past trades no older than 24 h in arrival order, and the running sum is theirs |
| PriceEngine.RunKeepsWindow | predsx/services/processor/main.go:284-349 | after any event the queue is a suffix of the history, the sum is the queue's, and what was evicted was stale |
| PriceEngine.EvictedOnce | predsx/services/processor/main.go:291-294 | the history is what was evicted followed by the queue, and evictions only ever advance, so each trade leaves once |
| PriceEngine.BookVolumeNeverTooLow | predsx/services/processor/main.go:340-349 | at any later time, for nonnegative notionals, the volume a book update publishes without evicting is at least the true 24-hour volume, and equal to it if and only if no queued trade older than a day has a positive notional |
| PriceEngine.MarketPriceState.Evict | predsx/services/processor/main.go:289-294 | drops exactly the stale front of the queue and its sum |
| PriceEngine.MarketPriceState.OnTrade | predsx/services/processor/main.go:284-317 | one trade is one step of the model; the update carries the new volume, the stored quote, and its mid price and spread if two-sided, else the trade's price |
| PriceEngine.MarketPriceState.OnBook | predsx/services/processor/main.go:328-363 | stores and publishes a two-sided book with the volume of the last trade, ignores any other |
| Ema.EmaStaysInside | predsx/services/processor/main.go:388-397 | over any run with key expiries the stored average lies between the six-decimal roundings of any bounds of the prices since the last expiry |
| Ema.StepStaysInside | predsx/services/processor/main.go:395-397 | a convex step followed by rounding stays between rounded bounds |
| Ema.TradeBlends | predsx/services/processor/main.go:390-397 | against a nonzero stored average v a trade at p stores the rounding of 0.2 p + 0.8 v; with none stored, or zero, that of p |
| Ema.RoundMonotone | predsx/services/processor/main.go:397 | rounding to six decimals keeps order |
| Ema.RoundIdempotent | predsx/services/processor/main.go:390-397 | what was written with six decimals is written again unchanged |
| Ema.RoundIsNearest | predsx/services/processor/main.go:397 | the written number is a multiple of a millionth, none is nearer, and at a tie it is even |
| Ema.FiresIff | predsx/services/processor/main.go:392-400 | for positive prices a momentum signal fires if and only if price > 84/79 or price < 76/81 of the previous average, and never on a first trade |
| Ema.SignalIff | predsx/services/processor/main.go:392-400 | against a stored average v > 0 a positive price p signals if and only if p > 84/79 v or p < 76/81 v; with none stored, or zero, nothing does |
| Ema.Analyzer.OnTrade | predsx/services/processor/main.go:388-404 | one trade stores the rounding of 0.2 p + 0.8 v, or of p if no nonzero v is stored, and for positive p and v signals if and only if p > 84/79 v or p < 76/81 v |
| RankedPages.Consider | predsx/services/api/handlers/rest.go:132-160 | a row yields the id it resolves to, or its own, exactly if it is readable, not seen, and metadata under that id, else under its own, has the exchange and status asked for |
| RankedPages.IdealIff | predsx/services/api/handlers/rest.go:132-167 | a market is on the ideal list if and only if some readable row resolves to it and its metadata, or else the row's, has the exchange and status asked for, whatever the case |
| RankedPages.IdealInOrder | predsx/services/api/handlers/rest.go:132-167 | the list is in the order of the markets' first rows |
| RankedPages.Scan | predsx/services/api/handlers/rest.go:125-168 | the scan stops after a prefix of the rows, with the deduplicated filtered list of that prefix, for want of rows or because it has enough |
| RankedPages.ActivityRankedMarkets | predsx/services/api/handlers/rest.go:96-179 | the early-stopping scan returns exactly the slice [offset, offset + limit) of the deduplicated filtered list over the first max(500, 10 (offset + limit)) rows, and every market on it is listed by a row of the ranking |
| RankedPages.EarlyStop | predsx/services/api/handlers/rest.go:164-178 | rows after the target is met cannot change the page |
| RankedPages.DedupPrefix | predsx/services/api/handlers/rest.go:132-167 | scanning fewer rows yields a prefix of the same list |
| RankedPages.DedupIsDistinct | predsx/services/api/handlers/rest.go:144-163 | the list holds exactly the candidates not seen before, each once |
| RankedPages.PageOfIdeal | predsx/services/api/handlers/rest.go:170-178 | a page is a stretch of one ideal list, the list over the whole ranking, from its offset on |
| RankedPages.PagesDisjoint | predsx/services/api/handlers/rest.go:77-89 | ranked pages a page apart never share a market |
| RankedPages.FullPagesAreIdeal | predsx/services/api/handlers/rest.go:85-89 | following any number of cursors over full ranked pages reads the ideal list without overlap or gap |
| RankedPages.TraversalIff | predsx/services/api/handlers/rest.go:77-105 | following enough cursors from an offset reads all remaining markets of the ranking, in order, if and only if, for every page that begins before the end of the list, the max(500, 10 t) rows queried up to its end t hold its markets |
| RankedPages.PageDue | predsx/services/api/handlers/rest.go:102-178 | a ranked page has the length due to it if and only if its queried rows hold the markets up to its end, or the list ends before it |
| RankedPages.NoGapIffFull | predsx/services/api/handlers/rest.go:77-89 | a nonempty next ranked page continues the list if and only if the page before it was full, which it is if and only if the rows queried for it hold as many markets as its end |
| RankedPages.ShortPageSkips | predsx/services/api/handlers/rest.go:102-105 | a ranking of 500 traded markets without metadata and 100 with, whose first page is empty and whose second page starts at the ideal list's fifty-first market |
| RankedPages.RecentMarkets | predsx/services/api/handlers/rest.go:181-273 | the fillers are the first `limit` distinct recent markets not on the page already |
| RankedPages.RecentIff | predsx/services/api/handlers/rest.go:186-265 | a market can be a filler if and only if it is a readable recent row and not on the page, the empty id always |
| RankedPages.FillersFollow | predsx/services/api/handlers/rest.go:77-80 | the ranked markets are a prefix of the page; what follows is recent and not among them, save the empty id |
| RankedPages.ShortPageHasAll | predsx/services/api/handlers/rest.go:215-267 | a page that is not full holds every readable market of the recent rows scanned for it |
| RankedPages.BeyondTheRanking | predsx/services/api/handlers/rest.go:77-89 | beyond the ranking every page is one and the same set of fillers: two pages share a market if and only if the recent rows scanned hold any, and pages never end if and only if these hold `limit` markets |
| RankedPages.PagesShareIff | predsx/services/api/handlers/rest.go:77-89 | two pages a page apart or more share a market if and only if a filler of one is on the other |
| RankedPages.PageItemsDistinct | predsx/services/api/handlers/rest.go:77-80 | a filled page has at most `limit` items, and all distinct ids if and only if the empty id is not both ranked and filler on it |
| RankedPages.DistinctUnlessEmptyId | predsx/services/api/handlers/rest.go:77-80 | no page lists a market twice unless the empty id is a wanted market of the ranking and also in the recent table |
| RankedPages.DistinctPageIff | predsx/services/api/handlers/rest.go:77-80 | for tables of any size, a page lists a market twice if and only if the list of its queried rows holds the empty id from the offset on and ends within the page, and a recent row with the empty id is scanned after fewer other markets than there is room for |
| RankedPages.DistinctIff | predsx/services/api/handlers/rest.go:77-80 | no page of any size repeats a market if and only if the empty id is not both a wanted market of the ranking and recent; for pages up to a size that both tables together fit in, the same |
| RankedPages.EmptyIdTwice | predsx/services/api/handlers/rest.go:186-191 | one market of the default exchange with an empty id, ranked and recent, is listed twice |
| RankedPages.FillPage | predsx/services/api/handlers/rest.go:77-80 | the ranked page, filled up to `limit` |
| RankedPages.GetMarkets | predsx/services/api/handlers/rest.go:54-89 | the page for the offset of the cursor or the query; there is more exactly when it is full, and its cursor decodes to the next offset |
| Cursors.DecodeOfEncode | predsx/services/api/handlers/rest.go:1226-1232 | base64url decoding (section 5 of RFC 4648) undoes encoding for every byte string |
| Cursors.OnlyWholeGroups | predsx/services/api/handlers/rest.go:1232 | only whole groups of four alphabet symbols decode, with padding in the last two places at most |
| Cursors.KnownEncodings | predsx/services/api/handlers/rest.go:1227 | the encoding gives the test vectors of section 10 of RFC 4648 and the URL-safe symbols of its section 5 |
| Cursors.CursorRoundTrip | predsx/services/api/handlers/rest.go:1226-1241 | decoding the cursor of any number gives it back, 0 for negative ones and the largest 64-bit integer beyond it |
| Cursors.DecodeCursorInRange | predsx/services/api/handlers/rest.go:1231-1241 | any text at all decodes to a nonnegative 64-bit offset, positive only for the encoding of a positive number |
| Decimal.AtoiOfItoa | predsx/services/api/handlers/rest.go:1227-1236 | reading the decimal text of an integer gives it back, cut off at the 64-bit bounds |
| Decimal.ItoaInjective | predsx/services/ingestion/main.go:635 | different integers have different texts |
| MarketIndex.KeysDiffer | predsx/services/discovery/main.go:249-270 | token, condition and extraction keys never coincide, whatever the ids |
| MarketIndex.WritesOfMarket | predsx/services/discovery/main.go:264-299 | a market's writes, one by one, and no others |
| MarketIndex.AnyInterleavingIndexes | predsx/services/discovery/main.go:107-123 | when each indexed token and condition id belongs to one market, any interleaving of the two crawlers' writes ends with every indexed id mapped to its market, nothing else indexed, and exactly the crawled markets listed |
| MarketIndex.InterleavingsAgree | predsx/services/discovery/main.go:107-123 | any two interleavings leave the same indexes and market set |
| MarketIndex.NeverMisleads | predsx/services/discovery/main.go:107-123 | after any prefix of any interleaving an index key is missing or already holds the id of its market, and none is there that no market has |
| MarketIndex.ListedIsIndexed | predsx/services/discovery/main.go:232-300 | at any moment of any interleaving, every id in the market set belongs to a market whose token and condition ids already lead to it |
| MarketIndex.ProcessorFindsMarket | predsx/services/processor/main.go:554-566 | the processor's resolver maps an indexed condition id to its market, and a token to its market if and only if the reference is not the condition id of a market with another, nonempty id |
| MarketIndex.ApiFindsCondition | predsx/services/api/handlers/rest.go:947-967 | the API's resolver maps a 0x-prefixed condition id to its market if and only if that text is not another market's id |
| MarketIndex.ApiFindsToken | predsx/services/api/handlers/rest.go:947-967 | it maps a token to its market if and only if that text is neither another market's id nor, 0x-prefixed, another market's condition id |
| MarketIndex.ApiResolveIdempotent | predsx/services/api/handlers/rest.go:947-967 | once the writes have finished, resolving twice is resolving once |
| MarketIndex.UnknownStays | predsx/services/processor/main.go:554-566 | what nothing indexes resolves to itself, in both resolvers |
| MarketIndex.KnownStays | predsx/services/api/handlers/rest.go:952-954 | a listed market id resolves to itself, whatever else it may be |
| MarketIndex.Redis.ProcessMarket | predsx/services/discovery/main.go:248-275 | writes the token and condition indexes of a market with two tokens or more, key by key; otherwise nothing |
| MarketIndex.Redis.StoreMarketMetadata | predsx/services/discovery/main.go:277-300 | writes metadata and the condition index and adds the id to the market set |
| MarketIndex.Redis.Store | predsx/services/discovery/main.go:232-236 | what a crawler writes for one market, in order |
| MarketIndex.Redis.Crawl | predsx/services/discovery/main.go:379-383 | what a crawler writes for all it fetches, in order |

## Left out

- Kafka, Redis, ClickHouse and WebSocket client internals: appear as sequences, maps, sets and step outcomes.
- The storage service's batching and SQL, JSON decoding of payloads, HTTP routing, response headers and CORS, debug endpoints and their authentication, configuration, and service start-up and shutdown.
- The indexer's on-chain subscription mode and the decoding of logs: library code.
- Data races are interleaved sequentially; weaker memory orders are not modelled.
- WsProtocol.FramesRecoverMessages: a frame is written as a whole; what the peer sees of a frame whose write fails is not modelled.
- HubLoop.Hub.Serve: assumes each connection registers once and messages hold no newline, as new connections and JSON do; the hub's own input channels are the schedule.
- StreamWorkers.AllTokensAnnounced: the PING writer of a connection and the close of an old one are not modelled, and the token set is sent as a set.
- RpcRotation.CooldownRespected: the pool is not empty, as `pick` itself requires.
- BlockPolling.CyclesIff: cycles that see no head, or start at a head of 5 or less that is not fetched at once, are not among those of the sequence, and neither are cycles that start lower than the one before.
- Aggregation.BucketsAreCandles: sums are exact; rounding of floating-point addition is not modelled, and neither is whether a flush reaches the database.
- Orderbooks.GetTopLevels: the number a price text is read as is an arbitrary total function; the library sort is an insertion sort with the same guarantee, and the order of ties is left open.
- Orderbooks.Orderbook.Handle: single price changes, which are published without touching the book, and the map from market and token to book are not modelled.
- PriceEngine.WindowIsExact: volumes are exact reals.
- Ema.EmaStaysInside: only the six-decimal rounding is modelled, on exact reals.
- RankedPages.GetMarkets: the tables, with the filter of the recent query applied, and the lookups stay fixed during a request; offsets are unbounded, so overflow near 2^63 is not modelled, nor is the 30-second page cache or anything of an item but its id.
- MarketIndex.AnyInterleavingIndexes: every write succeeds, and evictions are not modelled.
- RateLimit.AdmissionBounds: per key; how a client address becomes a key is not modelled. Requests let through because INCR failed are not admissions and have no bound.
