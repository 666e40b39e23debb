# Verified model of a lock-free matching engine

This project models a single-writer limit order book and matching engine, the lock-free rings that join it
to its neighbours, the feed that drives it, and the telemetry behind it, and proves what they promise.

The simple meaning of the book is two price-sorted FIFO queues (`BookSpec`): one message sweeps the front of
the opposite queue and then rests or discards what is left. Everything faster is proved against it.

| file | component |
|---|---|
| `Types`, `BookSpec`, `BookTheory` | messages, the two sorted queues, and what every message keeps |
| `Slots`, `PriceLevel`, `Layout`, `OrderBook`, `MemoryPool`, `MatchingEngine` | the flat engine: intrusive lists threaded through pool slots, per-tick levels, id map, cached bests, free list |
| `OrderLaws` | the one right answer to a message, limits and price-time priority over whole runs |
| `EngineInvariants`, `RestCancel`, `EngineRuns`, `EngineDriver` | reachable-state facts, rest-then-cancel, whole runs |
| `MapBook`, `MapEngine`, `TwoEngines`, `Workload` | the textbook engine, the simulation between the two programs, the generated streams |
| `Bits`, `Spsc`, `SpscQueue`, `Pipeline` | the ring as a transition system and as code, the three-thread pipeline |
| `Feed`, `FeedLaws`, `FeedHandler`, `FeedEngine` | depth frames to cancel/new streams, what a frame says row by row, and the feed with the engine |
| `Histogram`, `LatencyTracker` | log-linear buckets and percentiles |
| `Tape` | the two-stage trade tape |

How the parts are modelled:

- A pointer to an order is the index of its pool slot; `NULL` is -1. The pool's memory is one array of slots,
  each a free-list node or an order, so list links and free links share the same bytes as in the source.
  The level at each tick, the book, the pool and the engine are classes with ghost queues.
- Quantities are 32-bit: remaining quantity, the level aggregate and the order count use wrapping arithmetic.
- The ring's steps are single atomic loads, slot accesses and stores in any interleaving. In the transition
  system a reload may also return an older published index; the exact full/empty results are stated for fresh
  loads, which are what the code in `SpscQueue` makes.
- Random draws are nondeterministic choices, clocks are parameters, and the feed starts from decoded rows.
- `MapBookEngine::handle` checks neither ids, prices nor capacity, so it is a different program from the flat
  engine outside its intended inputs; `TwoEngines.Both` gives the exact boundary, and `DuplicateId`,
  `ExhaustedPool` and `OutOfRange` an input beyond each part of it. The comment "producer joined AND queue
  drained" at `src/main.cpp:263` does not hold of the code: `DrainCanMiss` gives the run and `ExitDrains` the
  exact condition on the schedule. The invariant at `src/core/price_level.h:10` holds modulo 2^32:
  `AggregateTracks` says when it is exact and `AggregateWraps` gives a book where it is not.

`dafny verify dfyconfig.toml` checks the whole project.

## Model

| member | source | states |
|---|---|---|
| `BookSpec.MatchIsGreedy` | src/core/matching_engine.cpp:95-126 | a sweep is the recursive match if and only if it is greedy: fills name makers from the front at their own prices, a bid never above its limit and an ask never below, all but the last consume their maker, every unit is accounted for, and it stops only when it must: a market order never with somebody left, a limit order only before a price beyond its own |
| `BookTheory.ProcessKeepsWellFormed` | src/core/matching_engine.cpp:12-93 | every message keeps both sides sorted, uncrossed, duplicate-free, open and within capacity |
| `BookTheory.RemainderNonCrossing` | src/core/matching_engine.cpp:37-63 | because matching runs before resting, what is left of a limit order crosses nobody |
| `BookTheory.MatchExhausts` | src/core/matching_engine.cpp:37-53 | an unsatisfied market order leaves nobody, an unsatisfied limit order only prices beyond its limit |
| `BookTheory.LevelsDetermineSide` | src/core/order_book.h:5-18 | the per-tick queues determine the sorted side: two sorted queues with the same levels are equal |
| `OrderLaws.AnswerIff` | src/core/matching_engine.cpp:21-80 | the specified outcome of a new order is the only one that meets its description in prices, quantities and times: rejected exactly on zero quantity or a limit price off the book, greedy within the limit, and resting with id, side, type, price, quantity and timestamp as submitted, behind every order at its price or better, exactly when it may |
| `OrderLaws.CancelIff` | src/core/matching_engine.cpp:82-93 | the specified outcome of a cancel is the only one in which that order leaves, nothing else moves and nothing trades |
| `OrderLaws.EveryBookInArrivalOrder` | src/core/price_level.h:28-39 | over every run each resting order is as some message submitted it, and orders at one price stand in the order of their submission |
| `OrderLaws.FillsHonourLimits` | src/core/matching_engine.cpp:37-53 | over every run every fill names a taker submitted now and a maker submitted earlier on the other side, at the maker's limit price and within the taker's limit |
| `OrderLaws.PriceTimePriority` | src/core/matching_engine.h:3-11 | in every reachable book, when a new order trades with an order, every order at a better price, or at the same price and submitted before, has traded first and completely |
| `OrderLaws.DiscardReasons` | src/core/matching_engine.cpp:26-77 | each ledger column grows by what its reason says: off-book price, market remainder, full pool or taken id, told from the prices, sizes and ids alone |
| `Slots.AppendLinks` | src/core/price_level.h:30-39 | appending keeps a doubly linked image of the queue, changes no order's fields and no other slot |
| `Slots.UnlinkLinks` | src/core/price_level.h:47-61 | unlinking any position leaves a doubly linked image of the queue without it and touches nothing else |
| `PriceLevels.PriceLevel.PushBack` | src/core/price_level.h:30-43 | the queue grows at the back; links, count and aggregate stay in step |
| `PriceLevels.PriceLevel.Remove` | src/core/price_level.h:47-65 | an order anywhere in the queue leaves it with its own links cleared; links, count and aggregate stay in step |
| `PriceLevels.PriceLevel.PopFront` | src/core/price_level.h:68-87 | the oldest order leaves with its own links cleared, or null on an empty queue with nothing touched; links, count and aggregate stay in step |
| `PriceLevels.TradeKeepsLevel` | src/core/matching_engine.cpp:103-109 | filling the front order and subtracting the amount keeps links and aggregate in step |
| `MemoryPools.MemoryPool.constructor` | src/core/memory_pool.h:36-43 | the free list is every slot, lowest first |
| `MemoryPools.MemoryPool.Allocate` | src/core/memory_pool.h:53-61 | pops the head of the acyclic free list, or null when it is empty |
| `MemoryPools.MemoryPool.Deallocate` | src/core/memory_pool.h:65-70 | pushes a slot back, keeping the chain acyclic and the count exact |
| `Layouts.AddKeepsBook` | src/core/order_book.cpp:15-20 | indexing and queueing a fresh non-crossing order keeps memory, id map and sorted queues in step |
| `Layouts.RemoveKeepsBook` | src/core/order_book.cpp:47-48 | unlinking an indexed order keeps memory, id map and sorted queues in step |
| `OrderBooks.ScanFindsBid` | src/core/order_book.cpp:89-97 | below an exhausted best bid the first non-empty level is the next best bid, because asks lie above |
| `OrderBooks.ScanFindsAsk` | src/core/order_book.cpp:106-111 | above an exhausted best ask the first non-empty level is the next best ask |
| `OrderBooks.OrderBook.AddOrder` | src/core/order_book.cpp:10-35 | refused exactly on a duplicate id or a price out of range; otherwise the order joins its queue, and bests and counts stay true |
| `OrderBooks.OrderBook.CancelOrder` | src/core/order_book.cpp:37-66 | refused exactly on an unknown id; otherwise the order leaves its queue and the id map, and bests and counts stay true |
| `OrderBooks.OrderBook.UpdateBestBidAfterRemove` | src/core/order_book.cpp:81-98 | the scan ends at the price of the best bid, or at tick 0 when no bid is left |
| `OrderBooks.OrderBook.UpdateBestAskAfterRemove` | src/core/order_book.cpp:100-112 | the scan ends at the price of the best ask, or at the highest tick when no ask is left |
| `MatchingEngines.MatchingEngine.FillOnce` | src/core/matching_engine.cpp:100-123 | one fill takes as much of the best maker as it can at the maker's price and retires a maker with nothing left, with every structure valid afterwards |
| `MatchingEngines.MatchingEngine.FillLevel` | src/core/matching_engine.cpp:95-126 | the level loop terminates, keeps every structure valid at each turn, and continues the one greedy sweep |
| `MatchingEngines.MatchingEngine.Sweep` | src/core/matching_engine.cpp:37-53 | the nested loops terminate and compute exactly the greedy sweep of the opposite queue |
| `MatchingEngines.MatchingEngine.Rest` | src/core/matching_engine.cpp:59-77 | the remainder rests exactly when a slot is free and its id is unused; otherwise the slot, if taken, is given back |
| `MatchingEngines.MatchingEngine.ProcessNewOrder` | src/core/matching_engine.cpp:21-80 | on every path fills and book are the one right answer: a zero quantity or a limit price off the book changes nothing; otherwise the order trades greedily within its limit, and what is left of a limit order rests, as submitted, behind its price or better, if a slot is free and its id unused |
| `MatchingEngines.MatchingEngine.ProcessCancelMessage` | src/core/matching_engine.cpp:82-93 | succeeds exactly for a resting id, removes it and recycles its slot |
| `MatchingEngines.MatchingEngine.ProcessMessage` | src/core/matching_engine.cpp:12-19 | any message takes a valid engine to a valid engine with the one right answer to a new order, or with exactly the cancelled order gone |
| `EngineInvariants.QueuedOrder` | src/core/order_book.cpp:15-20 | a queued slot holds an order of that tick, indexed under its id, on its own side of the book |
| `EngineInvariants.BestBounds` | src/core/order_book.h:55-66 | cached best prices bound every queued order of their side and the book is uncrossed, between fills too |
| `EngineInvariants.BestIsHeld` | src/core/order_book.h:55-66 | a side with orders has a non-empty level at its cached best price, headed by its best order |
| `EngineInvariants.EmptySideSentinels` | src/core/order_book.h:80-81 | a side without orders has tick 0 as its best bid or the highest tick as its best ask |
| `EngineInvariants.OneSidePerTick` | src/core/order_book.h:9-13 | no level ever holds both sides |
| `EngineInvariants.IndexIsUnion` | src/core/order_book.cpp:15-20 | the id map is exactly the union of the level queues |
| `EngineInvariants.SlotsPartitioned` | src/core/memory_pool.h:36-70 | every slot is free or queued and never both; free slots plus both counts equal the pool size |
| `EngineInvariants.AggregateTracks` | src/core/price_level.h:9-11 | every level's aggregate is its outstanding quantity modulo 2^32, exact when that fits |
| `EngineInvariants.AggregateWraps` | src/core/price_level.h:9-11 | a new engine of two slots given two bids of 2^32 - 1 at one tick reports an aggregate of 2^32 - 2 for an outstanding quantity of 2^33 - 2 |
| `EngineInvariants.CountsExact` | src/core/order_book.cpp:22-32 | each side's count is the number of indexed orders of that side |
| `RestCancel.RestThenCancel` | src/core/matching_engine.cpp:59-93 | in the sorted queues, cancelling undoes a rest that traded with nobody |
| `RestCancel.RestAndCancel` | src/core/matching_engine.cpp:59-93 | on the real engine, rest then cancel restores levels, best prices, counts, id map and free list exactly |
| `EngineRuns.RunKeepsWellFormed` | src/core/matching_engine.cpp:12-93 | every reachable book is sorted, uncrossed, duplicate-free and within its pool |
| `EngineRuns.QuantityConserved` | src/core/matching_engine.cpp:21-126 | over every run, submitted equals twice filled plus resting plus cancelled plus rejected, market remainder, pool-exhausted and duplicate-id discards |
| `EngineRuns.LedgerIsTrue` | src/core/matching_engine.cpp:21-126 | the conserved totals are the quantity of the submitted orders and the volume of the emitted fills |
| `EngineRuns.OrdersSettle` | src/core/matching_engine.cpp:59-77 | with distinct ids, the fills naming an order never exceed its quantity and equal its filled quantity while it rests |
| `EngineRuns.FillsStop` | src/core/matching_engine.cpp:112-122 | once an order is filled or cancelled no later fill names it |
| `EngineDriver.Drive` | src/core/matching_engine.cpp:12-19 | the real engine on any stream ends with the book and all the fills of the specified run |
| `EngineDriver.DriveNew` | src/core/matching_engine.cpp:21-126 | a new engine on any stream: submitted quantity equals twice the volume of its fills plus resting, cancelled and discarded; slots are conserved |
| `MapBooks.Begin` | bench/matching_bench.cpp:103-106 | the first key of a map ordered best price first |
| `MapBooks.ExecutionTracks` | bench/matching_bench.cpp:108-118 | trading against the front node keeps maps, lists and index in step with the sorted queues |
| `MapBooks.CancelTracks` | bench/matching_bench.cpp:124-129 | erasing the located node and its index entry cancels exactly that order |
| `MapEngines.MapBookEngine.Match` | bench/matching_bench.cpp:101-122 | the nested loops compute the same greedy sweep, cut at the limit price, and count its fills |
| `MapEngines.MapBookEngine.HandleNew` | bench/matching_bench.cpp:64-86 | any new order leaves the maps showing the unchecked textbook outcome, and stays sound on acceptable ones |
| `MapEngines.MapBookEngine.HandleCancel` | bench/matching_bench.cpp:88-99 | removes exactly the named order, or nothing for an unknown id |
| `MapEngines.MapBookEngine.Handle` | bench/matching_bench.cpp:42-44 | any message leaves the maps showing the textbook outcome; on acceptable messages that is the flat engine's outcome |
| `TwoEngines.Both` | bench/matching_bench.cpp:64-86 | from equal books, the two programs report the same number of fills and hold the same queues after a message if and only if it is acceptable: its limit price is in range and anything left to rest finds a free slot and an unused id |
| `TwoEngines.DuplicateId` | bench/matching_bench.cpp:80-84 | two new engines given two bids under one id disagree |
| `TwoEngines.ExhaustedPool` | src/core/matching_engine.cpp:59-63 | two new engines with one slot given two bids disagree |
| `TwoEngines.OutOfRange` | src/core/matching_engine.cpp:29-32 | two new engines given a bid at the first tick past the last level disagree |
| `TwoEngines.RunBoth` | bench/matching_bench.cpp:143-195 | on every acceptable stream both programs count the same fills for every message and end with equal queues at every price |
| `TwoEngines.GeneratedIsAcceptable` | tools/synthetic_workload.h:68-100 | every generated stream that never runs the pool dry is acceptable |
| `TwoEngines.FewSubmissionsFit` | src/core/matching_engine.cpp:59-63 | a stream with at most as many submissions as slots never runs the pool dry |
| `TwoEngines.Benchmark` | bench/matching_bench.cpp:132-195 | on every generated stream that never runs the pool dry, two new engines count the same fills per message and hold equal queues |
| `TwoEngines.GenerateAndRun` | bench/matching_bench.cpp:132-195 | any generated batch of at most as many messages as slots, from a new generator through two new engines: the same fills per message and equal queues, with nothing left to assume |
| `Workload.SwapPopRemoves` | tools/synthetic_workload.h:96-98 | swap-and-pop removes exactly the chosen id |
| `Workload.WorkloadGenerator.MakeNewOrder` | tools/synthetic_workload.h:68-86 | a fresh increasing id with the drawn side, type and quantity, the drawn price clamped to the book; a limit order, and only a limit order, becomes a cancel candidate |
| `Workload.WorkloadGenerator.MakeCancel` | tools/synthetic_workload.h:88-100 | cancels a candidate; afterwards the candidates are again exactly the limit orders submitted and not cancelled |
| `Workload.WorkloadGenerator.Next` | tools/synthetic_workload.h:47-51 | whatever is drawn, the stream stays well generated; a cancel is made exactly when drawn and some submitted limit order has not been cancelled |
| `Workload.WorkloadGenerator.Generate` | tools/synthetic_workload.h:53-60 | a batch of any length extends the stream and keeps it well generated |
| `Workload.GeneratedDistinct` | tools/synthetic_workload.h:68-71 | generated streams never submit an id twice |
| `Bits.MaskIsMod` | src/transport/spsc_queue.h:103 | masking with capacity - 1 is the remainder by a power-of-two capacity |
| `Spsc.StepKeeps` | src/transport/spsc_queue.h:53-85 | every atomic step of either thread keeps the ring invariant |
| `Spsc.EveryRunIsFifo` | src/transport/spsc_queue.h:53-85 | under every interleaving, popped items followed by the live slots are the pushed sequence, at most capacity - 1 are queued, caches lag in the safe direction, and the producer never writes a live slot |
| `Spsc.RefusedPush` | src/transport/spsc_queue.h:59-64 | a push is refused exactly when capacity - 1 items were queued as of the tail observed |
| `Spsc.RefusedPop` | src/transport/spsc_queue.h:75-80 | a pop is refused exactly when nothing was queued as of the head observed |
| `Spsc.SizeOfTwoLoads` | src/transport/spsc_queue.h:88-92 | a head loaded in one state and a tail any number of steps later: the result is how many of the pushes seen were still queued while the tail has not passed that head, otherwise the overshoot taken from the capacity; with no step between, the size |
| `Spsc.EveryRunContinues` | src/transport/spsc_queue.h:53-85 | after every run both threads can take their next step, and the slot one is about to access is inside the buffer |
| `SpscQueues.SpscQueue.TryPush` | src/transport/spsc_queue.h:53-69 | while the consumer takes any number of steps between any two of its own, the call adds the item once at the back or not at all; refused only if capacity - 1 items were queued at some moment of the call, never if there was room at its start |
| `SpscQueues.SpscQueue.TryPop` | src/transport/spsc_queue.h:72-85 | while the producer takes any number of steps between any two of its own, the call takes the oldest item or nothing; refused only if nothing was queued at some moment of the call, never if there was an item at its start |
| `Pipelines.MoveKeeps` | src/main.cpp:227-272 | every step of ingest, engine and output keeps the pipeline invariant |
| `Pipelines.EveryRunAccounts` | src/main.cpp:227-272 | over every interleaving, processed messages are an in-order prefix of those accepted, book and fills are theirs, fills plus dropped equals produced at message boundaries, and the output sees an in-order subsequence |
| `Pipelines.EveryFillTriedOnce` | src/main.cpp:241-247 | over every interleaving the fills the engine tries to push are those produced, each once and in order; delivered counts the published ones, and dropped counts exactly the tries given up because the ring was full as of the tail loaded |
| `Pipelines.EveryThreadContinues` | src/main.cpp:227-272 | in every reachable state every thread that has not returned can take its next step; a check that finds no stop goes back to popping |
| `Pipelines.LastPop` | src/main.cpp:256-266 | every run in which the engine exits has a last pop |
| `Pipelines.ExitDrains` | src/main.cpp:262-264 | at engine exit everything its last pop could see is processed; the ring is drained if and only if that load was fresh and ingest published nothing afterwards, in particular if the load was fresh and ingest had returned |
| `Pipelines.DrainCanMiss` | src/main.cpp:262-264 | on any ring and any message there is a run that exits with the message unprocessed |
| `Feed.CancelReflects` | src/feed/feed_handler.cpp:127-130 | cancelling the order of a level keeps live map, depth and replayed table in one-to-one correspondence |
| `Feed.NewReflects` | src/feed/feed_handler.cpp:134-137 | so does adding a fresh id at an uncovered level |
| `Feed.GapsSnoc` | src/feed/feed_handler.cpp:116-122 | one more sequence number adds one gap exactly when it is not the successor of the last |
| `FeedLaws.DescribesIff` | src/feed/feed_handler.cpp:220-280 | the depth after a frame is the only one described row by row: an update gives a level the size of the last readable row naming it, drops it if that is zero and leaves it if there is none; a snapshot gives each bid or ask level the size of the last non-zero row for its price in the array of that name, and no other level exists |
| `FeedLaws.ChronicleIff` | src/feed/feed_handler.cpp:196-298 | the depths of a session computed frame by frame are the only ones in which each frame describes the step from one to the next |
| `FeedLaws.FrameCounts` | src/feed/feed_handler.cpp:148-190 | a frame counts as skipped the rows with a readable price off the book, and as malformed the rows that cannot be read or whose size cannot |
| `FeedHandlers.FeedHandler.ApplyLevel` | src/feed/feed_handler.cpp:124-138 | sets or clears one level of the depth, with the messages that say so |
| `FeedHandlers.FeedHandler.ResetBook` | src/feed/feed_handler.cpp:140-146 | cancels every live order in any order; replaying what was emitted then gives the empty table |
| `FeedHandlers.FeedHandler.ConsumeRows` | src/feed/feed_handler.cpp:148-190 | applies the readable rows in order, an update's zero sizes removing their level and a snapshot's skipped, and counts the skipped and malformed ones |
| `FeedHandlers.FeedHandler.Parse` | src/feed/feed_handler.cpp:196-298 | the depth after any frame is the one it describes; live ids depend on the frame alone; counters are exact and every emitted message carries the frame's time |
| `FeedHandlers.Session` | src/feed/feed_handler.cpp:196-298 | after any frames the depth is the last of the session's only chronicle, and replaying the messages gives exactly that depth, one live id per level; cancels name live ids, ids are assigned 1, 2, 3 and so on, and the gap count is the number of trade sequence numbers that do not follow the one before |
| `FeedEngine.RestingIsListed` | src/feed/feed_handler.cpp:124-146 | processed by an empty engine, whatever rests is live in the replayed table under its own side, price and size |
| `FeedEngine.NoAddRefused` | src/core/matching_engine.cpp:74-77 | no add of the feed is rejected, out of range or a duplicate |
| `FeedEngine.NothingListedNothingRests` | src/feed/feed_handler.cpp:140-146 | when everything listed has been cancelled the book is empty |
| `FeedEngine.Session` | src/feed/feed_handler.cpp:196-298 | after any frames through both programs, every resting id is the live id of its side and price |
| `FeedEngine.Reset` | src/feed/feed_handler.cpp:140-146 | processing the cancels of a reset empties book and id map and makes the pool whole |
| `Histogram.BucketIff` | src/metrics/latency_tracker.h:95-111 | a value maps to a bucket if and only if it lies between the bucket's bounds |
| `Histogram.UpperIsLast` | src/metrics/latency_tracker.h:106-111 | `bucket_upper(i)` is the largest value of bin i and its successor opens bin i + 1 |
| `Histogram.IndexStep` | src/metrics/latency_tracker.h:95-104 | the bucket index is monotone with steps of at most one |
| `Histogram.BinsCover` | src/metrics/latency_tracker.h:41-45 | the bins hold exactly the values below 2^42 |
| `Histogram.RelativeError` | src/metrics/latency_tracker.h:13 | reporting the upper bound overstates a value by at most one sixty-fourth |
| `Histogram.PercentileError` | src/metrics/latency_tracker.h:61-72 | the bucket walk reports at least the exact sample of the rank and at most a sixty-fourth above it, below 2^42 |
| `Histogram.PercentileMonotone` | src/metrics/latency_tracker.h:61-72 | larger ranks never report smaller values |
| `Histogram.RankExists` | src/metrics/latency_tracker.h:61-72 | every rank from 1 to the count is held by some sample |
| `LatencyTrackers.LatencyTracker.Record` | src/metrics/latency_tracker.h:49-57 | bins, count, wrapped sum, minimum and maximum describe exactly the samples recorded |
| `LatencyTrackers.RankNearest` | src/metrics/latency_tracker.h:63-64 | a percentage up to 100 gives a rank within the samples, at most half a sample from the exact share |
| `LatencyTrackers.PercentagesMonotone` | src/metrics/latency_tracker.h:61-77 | a larger percentage never reports a smaller value |
| `LatencyTrackers.LatencyTracker.Percentile` | src/metrics/latency_tracker.h:61-72 | for any percentage the value reported is that of the rank nearest to it: within the promised error of the exact sample, 0 below the first sample and the maximum past the last |
| `Tape.DashboardHub.PublishOutput` | src/server/dashboard_hub.h:116-124 | the ring, head and count hold the newest rows of all that was published |
| `Tape.DashboardHub.SnapshotRows` | src/server/dashboard_hub.h:160-162 | the index order of a snapshot reads exactly the newest rows, oldest first |
| `Tape.OutputTape.OnFill` | src/main.cpp:376-384 | the pending ring keeps the newest rows since the last publish |
| `Tape.OutputTape.PublishDashboard` | src/main.cpp:304-328 | after rotation and publish the hub shows exactly the newest 48 rows of the whole session |
| `Tape.Session` | src/main.cpp:297-328 | whatever the batching, a published snapshot is exactly the last min(N, 48) of all N rows, oldest first |

## Left out

- WebSocket client and server, TLS, reconnects: they rest on library behaviour outside the repository.
- JSON decoding and floating-point rounding: the feed starts from decoded rows and a percentage is a real number.
- Overflow of 64-bit ids, sequence numbers, counts and timestamps: these are unbounded here; only the sample sum wraps.
- OrderBooks.OrderBook.AddOrder: takes only limit orders that cross nobody, with no more filled than ordered, because the array shared by both sides relies on the engine matching first.
- MapEngines.MapBookEngine.Handle: after an unacceptable message only that message's outcome is stated, not later ones.
- LatencyTrackers.LatencyTracker.Percentile: computes the rank over the reals, not in double precision; a negative percentage, whose conversion is undefined in C++, is excluded.
- Full C++ weak memory: acquire and release pairs are atomic steps; stale index loads are covered, stale slot reads are not.
- The output thread's own exit and its latency-sample ring: the same ring and the same argument as the engine's.
- `publish_book` depth walk, stats, JSON text, metrics summary and the dashboard client: display code.
- Trade logger, replay tool and file generators: raw file input and output.
- TSC clock, thread pinning, priorities and benchmark timing: hardware and operating-system effects.
- Iterator addresses in the textbook lists are modelled as fresh numbers; list nodes never move, so nothing else depends on them.
