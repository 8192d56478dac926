# ChronoBook in Dafny

A Dafny model of ChronoBook, a limit order book and matching engine with a sharded threaded front end and a
persistence lane. `dafny verify dfyconfig.toml` checks the whole project.

## What is modelled

**Matching.** `Ladders` gives matching as functions on price ladders (price to FIFO queue). `Slab`, `PriceLevels`,
`OrderBooks` and `MatchingEngines` are the engine itself: orders live in the slots of a slab, pointers are slot
numbers, levels are doubly linked chains through the slots, the free list runs through the same slots, and every
operation is proved to compute its function on ladders while keeping all of these structures intact. `Reference` is
the repository's own oracle, a flat vector that is scanned for the best opposite order. `Refinement` proves that the
engine makes exactly the oracle's fills on every ordered feed; `Divergence` shows exactly where the two part ways.
`Sweep` and `BookInvariants` prove what matching promises (price-time priority, never crossed, unique ids, conserved
quantity), `Parties` who buys and who sells in each fill, and `Effects` what each message does, from its bytes to the
book. `Capacity`, `Replay` and `Recovery` drive whole feeds through a pool of limited size.

**Ring and shards.** `Ring` is the single-producer single-consumer ring between calls; `RingProtocol` is its atomic
steps under every interleaving, with index reads that may be stale. `Sharded` is the gateway and the shard workers as a
transition system over plain inboxes; `Collect` proves that what they deliver does not depend on the schedule, and
`Symbols` that for each symbol it is what the reference matcher delivers. `RingedShards` is the same system on the
rings, atomic step by atomic step, simulated by `Sharded`. `Shards` is one shard on the slab: several engines on one
pool.

**Durability.** `Journals` and `TradeStores` are the fill journal and the flat-file trade store with its per-symbol
index. `Pipeline` is the protocol that feeds both, with failures, restarts and writes that tear; `PipelineWorker` is
its worker on the journal and the store themselves; `Reconcile` compares them with a replay and rebuilds the store. A
store file is a count and the records present; a write is how far it reached and whether it reported success.

**Semaphore and pool.** `Futex` is the futex semaphore with the kernel's compare-and-sleep as a step;
`ConnectionPools` is the connection pool on top of it; `StatementCaches` is the LRU statement cache.

In a protocol module a run is any sequence of states that starts in an initial state and whose neighbours are related by
one enabled atomic step of one thread; a result about a run holds for every schedule. Times, I/O results (a write that
fails or tears, a sync that fails), spurious wakeups and scheduling are parameters or choices of a step.

Main results: `Refinement.EngineRefinesReference`, `Divergence.AgreeFromHereIff`,
`MatchingEngines.MatchingEngine.MatchOneSide`, `Sweep.MatchTakesPriorityPrefix`, `Parties.ApplyParties`,
`BookInvariants.QuantityConserved`, `Recovery.ReplayFills`, `RingProtocol.RingIsSafe`,
`Collect.CollectedIsSequential`, `RingedShards.RingedIsReference`, `RingedShards.EveryFeedCanBeServed`,
`Shards.ShardWorker.ApplyMessage`, `Pipeline.StoreHoldsJournalled`, `Pipeline.KeepsChainIff`, `Pipeline.NeverLosesIff`,
`Reconcile.WorkThenRebuild`, `Reconcile.RebuildAndReconcile`, `Reconcile.AlteredPriceIsBadIff`, `Futex.NoLostWakeup`,
`Futex.LeavesWithPermitUnless`, `ConnectionPools.EachConnectionInOnePlace`.

Findings where a promise needs a condition:

- The engine and the reference agree on all ordered continuations exactly if, at each side and price, arrival order and
  sequence order agree (`Divergence.AgreeFromHereIff`), and on an ADD whose id is resting exactly if it can neither trade
  nor rest (`Divergence.RefusedAddAgreesIff`).
- The store stays a prefix of the journal, in every run, exactly if the pipeline is not started again, or only after
  error-free runs and on a disk that keeps what it reports as written (`Pipeline.KeepsChainIff`). Started again after a
  failed insert, it goes on behind a gap (`Pipeline.GapAfterFailure`).
- An error-free pipeline run is sure to journal and store all it reported as published exactly if, in addition, one
  thread makes all calls (`Pipeline.NeverLosesIff`; a run that ends without a published fill is `Pipeline.LostFill`).
- A flush whose file write put the count but not all records on the disk leaves a store file that can no longer be
  opened, so that a rebuild from the journal fails as well; a write that did not reach the count leaves a file that
  opens as an empty store, and both cases can be reported as success, because the stream is tested before it is closed
  (`Reconcile.WorkThenRebuild`, `Reconcile.TornFlush`, `TradeStores.ReadAfterWrite`).
- A store in which one price has been altered is reported as consistent exactly if the change in notional is less than a
  billionth of the quantity traded (`Reconcile.AlteredPriceIsBadIff`, `Reconcile.AlteredPriceUnseen`).
- `route` after `stop` is accepted, and such messages wait for a restart: the processed total counts the messages routed
  before `stop` (`Collect.StopFinishesAll`).

## Model

| member | source | states |
|---|---|---|
| Refinement.EngineRefinesReference | src/MatchingEngine.cpp:8-132 | for every feed whose LIMIT ADDs and MODIFYs have nondecreasing sequence numbers, whatever those of the other messages, the engine's fills equal the reference's on the feed without the ADDs refused for a resting id, and both end with the same orders in the same order at every side and price |
| Refinement.RunRefines | src/MatchingEngine.cpp:8-132 | the same from any two related books whose orders are in sequence order, for every feed whose LIMIT ADDs and MODIFYs continue that order |
| Refinement.MatchRefines | include/matching/ReferenceMatcher.h:77-102 | the vector scan loop and the best-level loop make the same fills, leave the same taker and related books |
| Refinement.SubmitRefines | include/matching/ReferenceMatcher.h:61-75 | submitting an id that is not resting gives the same fills and related books for every order type; only a LIMIT order needs a sequence number not below those resting |
| Refinement.EraseRefines | include/matching/ReferenceMatcher.h:132-140 | erasing the first match in the vector removes the same order as the id map |
| Refinement.ApplyRefines | include/matching/ReferenceMatcher.h:38-59 | one accepted message keeps the two books related and makes the same fills; only a message that can rest needs a sequence number not below those resting |
| Refinement.EligibleIffCanTrade | include/matching/ReferenceMatcher.h:104-121 | the scan finds an eligible order exactly when the best level exists and crosses |
| Divergence.AgreeFromHereIff | include/matching/ReferenceMatcher.h:104-130 | from two books with the same live orders, engine and reference agree on every feed whose LIMIT ADDs and MODIFYs continue in sequence order exactly if at every side and price the resting orders are in sequence order |
| Divergence.Unmask | include/matching/ReferenceMatcher.h:129-129 | two orders out of sequence order at one price can always be told apart: cancels and one MARKET order make the matchers disagree |
| Divergence.ScanPicksHeadIff | include/matching/ReferenceMatcher.h:123-130 | without any assumption on sequence numbers, the scan picks the head of the best level exactly if that order has the lowest sequence number there |
| Divergence.NextTradeAgreesIff | src/MatchingEngine.cpp:100-106 | the next trade of engine and reference is the same exactly if the head of the best level is the oldest order there |
| Divergence.RefusedAddAgreesIff | src/MatchingEngine.cpp:10-13 | the engine ignores an ADD whose id rests; the reference does too exactly if that ADD is not LIMIT and can trade with nothing |
| Divergence.SwappedFeedDiffers | include/matching/ReferenceMatcher.h:129-129 | two SELLs at one price whose sequence numbers are swapped, and a BUY: engine and reference make different fills |
| Reference.ReferenceMatcher.BestOpposite | include/matching/ReferenceMatcher.h:104-121 | the scan returns the one eligible order that beats all earlier and is beaten by no later eligible one, or nothing if none is eligible |
| Reference.PickUnique | include/matching/ReferenceMatcher.h:104-121 | at most one position satisfies the scan's postcondition |
| Reference.ReferenceMatcher.MatchAll | include/matching/ReferenceMatcher.h:77-102 | the matching loop on the vector computes the reference's match function |
| Reference.ReferenceMatcher.ApplyMessage | include/matching/ReferenceMatcher.h:38-59 | one message changes the vector and the fills as the reference function says |
| Reference.ReferenceMatcher.RunFeed | include/matching/ReferenceMatcher.h:14-21 | a run starts afresh, skips invalid messages and returns the fills of the rest in order |
| Sweep.MatchTakesPriorityPrefix | src/MatchingEngine.cpp:75-113 | the fills use a prefix of the opposite side sorted by price then arrival: all but the last maker are used up, prices are maker prices inside the limit, the taker receives exactly the volume, and an unfilled taker leaves nothing it could trade with |
| Sweep.QueueSorted | src/MatchingEngine.cpp:78-98 | the opposite side read best level first is sorted by price |
| Sweep.QueueKeepsArrival | include/core/PriceLevel.h:20-28 | at each price that reading is the level's own arrival order |
| Sweep.MatchIsWalk | src/MatchingEngine.cpp:75-113 | matching best level by best level is walking that queue from the front |
| BookInvariants.RunInvariants | src/MatchingEngine.cpp:115-122 | after every feed the best bid is strictly below the best ask and no id rests twice |
| BookInvariants.ApplyUncrossed | src/MatchingEngine.cpp:115-132 | every message keeps bids strictly below asks |
| BookInvariants.ApplyDistinct | src/MatchingEngine.cpp:8-40 | every message keeps ids unique |
| BookInvariants.QuantityConserved | src/ReplayEngine.cpp:6-54 | over every feed and per side, quantity entered equals volume traded plus quantity resting plus quantity thrown away: the remainder of cancelled and replaced orders and what the match loop leaves of MARKET and IOC takers |
| BookInvariants.ApplyBalances | src/MatchingEngine.cpp:55-73 | the same balance for one message |
| Parties.ApplyParties | src/MatchingEngine.cpp:55-73 | in every fill of a BUY the buyer is the incoming order and the seller an order that rested among the asks at the fill's price, in every fill of a SELL the other way round; a MODIFY trades on the side its order rested on, and nothing else trades |
| Parties.VectorApplyParties | include/matching/ReferenceMatcher.h:77-102 | the same of every fill of the reference matcher |
| Effects.MalformedIgnored | include/feed/BinaryProtocol.h:85-116 | a message with a bad type, no id, or, by its type, a bad side, order type, quantity or price changes nothing |
| Effects.AddTakesEffect | include/feed/BinaryProtocol.h:101-116 | every other ADD under a new id trades until it is filled or nothing is left to trade with; the rest of a LIMIT order rests on its side at its price, of another order is gone; under a resting id nothing changes |
| Effects.CancelTakesEffect | include/feed/BinaryProtocol.h:101-116 | a CANCEL with an id removes exactly the orders with that id |
| Effects.ModifyTakesEffect | src/MatchingEngine.cpp:29-40 | a MODIFY with a price and a quantity trades and rests its order anew, on the same side; of an id that does not rest it changes nothing |
| Ladders.Match | src/MatchingEngine.cpp:75-113 | the loop keeps the ladder well formed (no empty level, none at price 0), only fills the taker, never beyond its quantity, and stops only when no trade is possible |
| Ladders.Cancel | src/OrderBook.cpp:20-46 | after a cancel the id rests nowhere and the book is well formed |
| Ladders.CancelRemoves | src/OrderBook.cpp:28-46 | a cancel removes exactly the orders with that id |
| Slab.SlabPool.constructor | include/core/SlabPool.h:18-27 | all slots start on an acyclic, duplicate-free free list |
| Slab.SlabPool.Allocate | include/core/SlabPool.h:54-60 | null exactly when no slot is free; otherwise a slot that was free, now leased and blank |
| Slab.SlabPool.Deallocate | include/core/SlabPool.h:62-68 | null is ignored; a leased slot becomes free, the count never underflows, no other slot changes |
| Slab.SlabPool.PushFree | include/core/SlabPool.h:119-122 | the link goes into the slot itself and the chain stays acyclic and duplicate-free |
| Slab.SlabPool.PopFree | include/core/SlabPool.h:124-128 | the head comes off and the rest of the chain is intact |
| Slab.SlabPool.LeasedCount | include/core/SlabPool.h:76-78 | the counter is the number of slots not on the free list |
| PriceLevels.AddOrder | include/core/PriceLevel.h:20-28 | the order is linked at the tail; head, tail, links, cached total and count are exact for the longer chain, without overflow |
| PriceLevels.RemoveOrder | include/core/PriceLevel.h:30-41 | pointer surgery removes exactly that order from the chain in all four cases, the caches stay exact and its links are cleared |
| MatchingEngines.FillFrontLevel | include/core/PriceLevel.h:43-47 | filling the front order and decreasing the cached total keeps the level exact, so the clamp is never taken |
| OrderBooks.OrderBook.AddOrder | src/OrderBook.cpp:6-18 | false for null and for a known id, which change nothing; an unknown id rests at the tail of its level, created if missing; levels, id map and chains stay exact |
| OrderBooks.OrderBook.RemoveOrder | src/OrderBook.cpp:28-46 | the slot leaves its level and the id map, an emptied level goes, everything else stays |
| OrderBooks.OrderBook.CancelOrder | src/OrderBook.cpp:20-26 | null exactly when the id does not rest; otherwise that order's slot, with the book as the cancel function says |
| OrderBooks.OrderBook.GetBest | src/OrderBook.cpp:52-57 | the best price of a side, or 0 exactly for an empty side |
| OrderBooks.LookUp | src/OrderBook.cpp:48-50 | the id map knows an id exactly if an order with it rests, and leads to that order |
| OrderBooks.SaneBookOk | src/OrderBook.cpp:6-46 | an intact heap book denotes well-formed ladders: no empty level, no level at price 0, every order live under its own price and side |
| MatchingEngines.MatchingEngine.ExecuteTrade | src/MatchingEngine.cpp:55-73 | both orders are filled by the quantity; the buyer is the incoming order if that is a BUY and else the resting one, the seller the other, and price, quantity, time and symbol are those given |
| MatchingEngines.MatchingEngine.TradeOnce | src/MatchingEngine.cpp:100-111 | one turn of the loop consumes from the front of the best level, retires a filled maker and gives its slot back, and leaves everyone else's slots alone |
| MatchingEngines.MatchingEngine.MatchTurn | src/MatchingEngine.cpp:78-112 | one pass through the loop body is one unfolding of the match function and leaves the taker with a smaller remainder, or else the match function has nothing more to do |
| MatchingEngines.MatchingEngine.MatchOneSide | src/MatchingEngine.cpp:75-113 | the loop on the slab computes the match function: same book, same taker, same fills; book and free list stay intact |
| MatchingEngines.MatchingEngine.MatchLimit | src/MatchingEngine.cpp:115-122 | a LIMIT order trades, then rests or gives its slot back, as the submit function says |
| MatchingEngines.MatchingEngine.MatchAndDrop | src/MatchingEngine.cpp:124-132 | a MARKET or IOC order trades and always gives its slot back |
| MatchingEngines.MatchingEngine.ProcessOrder | src/MatchingEngine.cpp:8-20 | null is ignored, a resting id is refused and its slot freed, any other order is submitted by type |
| MatchingEngines.MatchingEngine.CancelOrder | src/MatchingEngine.cpp:22-27 | found exactly if the id rests; the order leaves the book and its slot is freed |
| MatchingEngines.MatchingEngine.ModifyOrder | src/MatchingEngine.cpp:29-40 | found exactly if the id rests; cancel and resubmit as a LIMIT order in the same slot |
| MatchingEngines.MatchingEngine.DrainFills | src/MatchingEngine.cpp:42-53 | hands over all fills and leaves none |
| Capacity.ServeAllIsRun | src/ReplayEngine.cpp:15-43 | a limited pool does nothing but leave out the ADDs that found no slot |
| Capacity.EnoughSlots | src/ReplayEngine.cpp:18-22 | a free slot per ADD means that nothing is dropped |
| Capacity.ApplyIds | src/MatchingEngine.cpp:115-122 | only an ADD can bring a new id into the book, and only its own |
| Replay.SlotSplit | include/core/SlabPool.h:54-68 | slots are free, resting in this book, or someone else's, and the counter is the sum of the last two |
| Replay.Deliver | src/ReplayEngine.cpp:15-43 | one message moves engine, pool and fills as the limited-pool function says; it reports drops and misses exactly and leaves everyone else's slots alone |
| Replay.ReplayEngine.ApplyMessage | src/ReplayEngine.cpp:6-54 | state and counters move as the functions say, the fills are drained, and the result is how many the message made |
| Replay.ReplayEngine.Run | src/ReplayEngine.cpp:56-86 | both modes, with any warm-up, reach the state and the counters that the feed alone determines |
| Replay.StatsAddUp | include/replay/ReplayEngine.h:32-64 | valid plus invalid is the feed length, kinds add up to the valid ones, dropped ADDs are those missing from the served feed, fills and volume are those of the run |
| Replay.CountersAreExact | src/ReplayEngine.cpp:6-54 | each counter is the number of messages it names: valid ones of each type, invalid ones, ADDs that find no slot, and CANCELs and MODIFYs whose order does not rest when they arrive |
| Replay.ReplayConserves | src/ReplayEngine.cpp:48-53 | over every replay and per side, quantity entered by the served messages equals the counted volume plus quantity resting plus quantity discarded |
| Recovery.ReplayFills | include/replay/RecoveryReconciler.h:36-67 | succeeds exactly if every message is valid and finds a slot, with the default capacity exactly if every message is valid; then the slab engine's fills are those of the run, and of the reference on an ordered feed; otherwise the error is that of the first message that stops it |
| Recovery.CleanWhenValid | include/replay/RecoveryReconciler.h:38-38 | with a slot per message, as in the default capacity, only an invalid message can stop the replay |
| Ring.NextPowerOfTwo | include/infra/SPSCRingBuffer.h:56-61 | the bit-smearing loop returns the least power of two not below n for 2 < n <= 2^63, 2 for smaller n, and 0 beyond |
| Ring.SmearStep | include/infra/SPSCRingBuffer.h:59-59 | each turn of the loop doubles the run of ones below the top bit |
| Ring.SpscRing.constructor | include/infra/SPSCRingBuffer.h:13-16 | an empty ring that can hold at least the requested number of items |
| Ring.SpscRing.IncrementIsSuccessor | include/infra/SPSCRingBuffer.h:63-63 | the masked increment is the successor modulo the capacity |
| Ring.SpscRing.TryPush | include/infra/SPSCRingBuffer.h:21-28 | appends to the queue; false exactly when capacity - 1 items are queued |
| Ring.SpscRing.TryPop | include/infra/SPSCRingBuffer.h:30-36 | takes the oldest item; false exactly when the queue is empty |
| RingProtocol.RingIsSafe | include/infra/SPSCRingBuffer.h:21-36 | in every interleaving with stale index reads, popped values are a prefix of pushed ones, at most capacity - 1 are in flight, and the producer never writes the slot the consumer may read |
| RingProtocol.FailuresAreExact | include/infra/SPSCRingBuffer.h:21-47 | a push gives up exactly if the tail value it read says full, a pop exactly if the head value it read says empty, and `empty` answers by the head value it read |
| RingProtocol.CallsAlone | include/infra/SPSCRingBuffer.h:21-36 | in every reachable state an undisturbed push appends its value, or gives up exactly when the ring is full, and an undisturbed pop hands out the oldest value, or finds none exactly when it is empty |
| RingProtocol.RingIsInbox | include/infra/SPSCRingBuffer.h:21-47 | the interleaved steps amount to pushes while there is room, looks at the head index, and pops of the next value seen |
| Sharded.ShardIndex | include/matching/ShardedEngine.h:157-163 | the owner of a symbol is a shard, and depends on the symbol alone |
| Sharded.MixIsInvertible | include/matching/ShardedEngine.h:157-163 | no two symbols have the same hash: the symbol can be computed from it |
| Sharded.EnoughShardsSeparate | include/matching/ShardedEngine.h:157-163 | the shard is chosen by the whole hash: with 2^64 shards no two symbols would share one |
| Sharded.RunKeeps | include/matching/ShardedEngine.h:174-189 | in every run each shard has applied its messages in routing order, and a worker that leaves has seen and processed all of them |
| Sharded.WorkerNeverStuck | include/matching/ShardedEngine.h:174-189 | in every reachable state a worker that has not left its loop can take a step |
| Sharded.FlaggedWorkerLeaves | include/matching/ShardedEngine.h:174-189 | a worker whose flag is set and whose reads return current values leaves within five steps for each message still in its inbox and five more, and until then no other step changes its shard |
| Collect.StopFinishesAll | include/matching/ShardedEngine.h:86-93 | after stop, under every schedule, with routes after earlier stops and any number of restarts, each shard is what its share of the messages routed before stop makes it, and the processed total is the number of these messages |
| Collect.CollectedIsSequential | include/matching/ShardedEngine.h:112-123 | with strictly increasing sequence numbers and no dropped ADD, the fills collected after stop are those of one thread running one engine per symbol over the messages routed before stop, in order |
| Collect.TotalProcessed | include/matching/ShardedEngine.h:125-130 | the sum of the shards' counters |
| Collect.CollectAllFills | include/matching/ShardedEngine.h:114-123 | all shards' fills, stably sorted by timestamp |
| Collect.SortUnique | include/matching/ShardedEngine.h:112-123 | a stable sort by timestamp has only one result |
| Collect.BooksStayEqual | include/matching/ShardedEngine.h:165-172 | each symbol's book on its shard equals its book in the one-thread run |
| Collect.ApplyStamps | src/MatchingEngine.cpp:70-70 | fills carry the sequence number of the message that made them, and only ADD and MODIFY make any |
| Collect.SlotsSuffice | include/matching/ShardedEngine.h:195-196 | a pool slot for every ADD of the shard means that none is dropped |
| Symbols.MarketBySymbol | include/matching/ShardedEngine.h:165-172 | the one-thread run over all symbols is, for each symbol, the run of one engine over that symbol's messages: same book, same fills |
| Symbols.EnginesKeepToTheirSymbol | include/matching/ShardedEngine.h:191-216 | every order in a symbol's engine carries that symbol |
| Symbols.CollectedIsReference | include/matching/ShardedEngine.h:112-123 | under every schedule the collected fills of each symbol are those of the reference matcher on that symbol's messages routed before stop |
| RingedShards.RunSimulated | include/matching/ShardedEngine.h:97-100 | every run in which gateway and workers take the atomic steps of their rings leads where a run with plain inboxes leads |
| RingedShards.EveryFeedCanBeServed | include/matching/ShardedEngine.h:86-100 | for every number of shards, ring sizes and sequence of messages some run routes exactly these messages and stops |
| RingedShards.NewSystem | include/matching/ShardedEngine.h:45-64 | any number of shards with rings of any size from two slots up is a start of a run |
| RingedShards.RingsBounded | include/infra/SPSCRingBuffer.h:21-36 | in every such run a ring holds at most its capacity, and has received exactly its shard's share of the routed messages, in order |
| RingedShards.RingedIsSequential | include/matching/ShardedEngine.h:112-130 | in every such run the fills collected after stop are those of one thread, and the processed total is the number of messages routed before stop |
| RingedShards.RingedIsReference | include/matching/ShardedEngine.h:112-123 | and the collected fills of each symbol are those of the reference matcher |
| Shards.EngineTable.GetEngine | include/matching/ShardedEngine.h:165-172 | the symbol's engine, created empty on first use, with all other engines unchanged |
| Shards.EngineTable.Relay | include/matching/ShardedEngine.h:191-209 | one engine's turn on the shared pool leaves every other engine's book as it was, and every slot in use in exactly one book |
| Shards.ShardWorker.ApplyMessage | include/matching/ShardedEngine.h:191-216 | one popped message moves the shard on the slab as the shard function says |
| Shards.SlotsAccounted | include/matching/ShardedEngine.h:139-155 | the pool's count of slots in use is the number of orders resting in all the engines that share it |
| Journals.FillJournal.Open | include/journal/FillJournal.h:40-50 | a new journal is empty; an existing file is taken over exactly if its header fits, with exactly the records that replaying it gives; a file that replays can be opened with its own capacity |
| Journals.FillJournal.Reopen | include/journal/FillJournal.h:40-50 | a journal closed and opened again has every record |
| Journals.FillJournal.Append | include/journal/FillJournal.h:57-66 | one more record, or refused without change exactly when full |
| Journals.FillJournal.AppendBatch | include/journal/FillJournal.h:68-71 | a full journal keeps the part of the batch that fitted; success means all fitted and synced |
| Journals.FillJournal.ReplayIsContents | include/journal/FillJournal.h:91-106 | replaying the mapped file gives the records appended |
| Journals.RecordsRoundTrip | include/journal/FillJournal.h:61-63 | nothing of a fill is lost in its record |
| Pipeline.StoreHoldsJournalled | include/journal/DurabilityPipeline.h:34-99 | at every step of every run, with any failure and any restart: the journal is a prefix of what was published, and the store holds, in order, nothing but what it held at first and what is journalled |
| Pipeline.JournalAheadOfStore | include/journal/DurabilityPipeline.h:66-99 | in every run, failed or not, that is not started again or only after error-free runs and with writes that reach the disk: stored fills are a prefix of journalled ones, which are a prefix of published ones, and no more is reported persisted than is stored |
| Pipeline.CleanStopKeepsAll | include/journal/DurabilityPipeline.h:40-48 | after an error-free stop in such a run, with one thread making all calls, journal and store hold everything published and the persisted count is its length |
| Pipeline.StopKeepsPopped | include/journal/DurabilityPipeline.h:66-92 | with any number of threads an error-free worker in such a run has kept exactly what was popped |
| Pipeline.LeftMeansStopped | include/journal/DurabilityPipeline.h:84-91 | in every run the stop flag is set once the worker has left, with or without an error |
| Pipeline.StoppedWorkerLeaves | include/journal/DurabilityPipeline.h:66-92 | once stopped, a worker with current reads and working files leaves within ten steps for each fill in the ring, one for each in its batch and thirteen more, with everything journalled if one thread makes all calls |
| Pipeline.EveryFeedCanBeKept | include/journal/DurabilityPipeline.h:34-99 | for every sequence of fills and batch size some run publishes exactly these and ends with all of them journalled and stored |
| Pipeline.LostFill | include/journal/DurabilityPipeline.h:46-48 | with separate threads a run can end without an error and with a published fill still in the ring, neither journalled nor stored |
| Pipeline.GapAfterFailure | include/journal/DurabilityPipeline.h:34-44 | started again after a failed insert, a pipeline can end without a further error with two fills journalled and only the second stored |
| Pipeline.LossAfterShortWrite | include/store/TradeStore.h:182-190 | after a write that reported success without reaching the disk, an error-free stop and another start, the store is empty and the fill still counted as persisted |
| Pipeline.KeepsChainIff | include/journal/DurabilityPipeline.h:34-99 | the prefix chain from store to journal to published fills holds in all runs exactly if the pipeline is not started again, or only after error-free runs and with writes that reach the disk |
| Pipeline.NeverLosesIff | include/journal/DurabilityPipeline.h:40-48 | every run that ends without an error has journalled and stored everything published exactly if one thread makes all calls and the pipeline is not started again, or only after error-free runs and with writes that reach the disk |
| PipelineWorker.FlushBatch | include/journal/DurabilityPipeline.h:94-99 | on journal and store themselves: exactly which records the journal gains, the exact condition for success, the store in memory, and the store file; failure never leaves the store with a fill the journal lacks |
| PipelineWorker.RunFlushes | include/journal/DurabilityPipeline.h:66-99 | any sequence of flushes up to the first failure: journal, trades, store file and persisted count are those of the worker's life as a function of the flushes |
| PipelineWorker.LifeKeepsOrder | include/journal/DurabilityPipeline.h:66-99 | over a whole life the journal gains a prefix of the fills the worker was given, all of them while it runs, and the store a prefix of what the journal gained |
| PipelineWorker.LifeLastsIff | include/journal/DurabilityPipeline.h:66-99 | a worker is still running exactly if all its fills have fitted the journal and every sync and rewrite was reported as done |
| TradeStores.IndexRange | include/store/TradeStore.h:205-211 | indexing a range turns an exact index of a prefix into an exact index of the longer one |
| TradeStores.IndexUnique | include/store/TradeStore.h:213-216 | an exact index is determined by the trades, so incremental indexing equals rebuilding |
| TradeStores.GatherIsSelect | include/store/TradeStore.h:146-173 | walking a symbol's list is filtering all trades |
| TradeStores.ReadAfterWrite | include/store/TradeStore.h:182-203 | what a store file reads as after a write: the old contents if it was not opened, empty without the count, the new trades with count and all records, an error in between |
| TradeStores.TradeStore.Load | include/store/TradeStore.h:192-203 | the trades that the count announces with an exact index; empty if there is no complete count; an error exactly if fewer records are present than counted |
| TradeStores.TradeStore.InsertBatch | include/store/TradeStore.h:108-118 | all or nothing in memory, index exact, the file as far as the write reached, success exactly if the write reports it |
| TradeStores.TradeStore.ReplaceAll | include/store/TradeStore.h:120-124 | the same for a replacement |
| TradeStores.TradeStore.TradeCount | include/store/TradeStore.h:130-133 | the number of the symbol's trades |
| TradeStores.TradeStore.VwapBetween | include/store/TradeStore.h:135-144 | the volume-weighted average over the filter of all trades |
| TradeStores.VwapWithinPrices | include/store/TradeStore.h:135-158 | an average lies between the lowest and the highest price, unless the 64-bit quantity has wrapped around |
| TradeStores.TradeStore.VwapOf | include/store/TradeStore.h:146-158 | the same for a symbol, through the index |
| TradeStores.TradeStore.Timeline | include/store/TradeStore.h:160-173 | the symbol's trades in order; a trade is among them exactly if it is stored, has the symbol, and lies within both time bounds |
| TradeStores.SelectIsExact | include/store/TradeStore.h:135-173 | a selection is the trades at exactly the positions whose symbol and timestamp qualify, in ascending order and once each |
| TradeStores.SelectMembers | include/store/TradeStore.h:135-173 | a trade is selected exactly if it is stored, of the symbol, and within both time bounds |
| Reconcile.SameFills | include/replay/RecoveryReconciler.h:108-122 | true exactly if the records are the fills' records |
| Reconcile.ReplayVwap | include/replay/RecoveryReconciler.h:124-137 | the average of the fills and the exact span of their timestamps |
| Reconcile.Reconcile | include/replay/RecoveryReconciler.h:69-90 | succeeds exactly if the feed replays, the journal replays and the store opens; then each check of the report holds exactly if what it checks holds, and the report is good exactly if the journal equals the replay, the counts agree and the averages are less than a billionth apart |
| Reconcile.AlteredPriceIsBadIff | include/replay/RecoveryReconciler.h:29-31 | a store with one altered price is reported as bad exactly if the change in notional is at least a billionth of the quantity traded, as the 64-bit counter shows it |
| Reconcile.AlteredPriceUnseen | include/replay/RecoveryReconciler.h:84-88 | an altered price of a small fill among large ones that no report shows |
| Reconcile.RebuiltStoreReconciles | include/replay/RecoveryReconciler.h:69-105 | with a store rebuilt from the journal, the report is good exactly if the journal equals the replay |
| Reconcile.RebuildStoreFromJournal | include/replay/RecoveryReconciler.h:92-105 | succeeds exactly if the journal replays, the store file opens and the rewrite is reported as done; the count it reports, and the file it leaves in every case |
| Reconcile.RebuildTwice | include/replay/RecoveryReconciler.h:92-105 | after a rebuild that reached the disk the store file reads as the journal's records, whatever it held before; a second rebuild succeeds exactly if its write is reported as done and, if it reaches the disk, leaves the same file |
| Reconcile.FlushThenRebuild | include/journal/DurabilityPipeline.h:94-99 | after a flush a rebuild goes through exactly if its own write is reported as done and the flush's write of the store file reached no count or all records, or was not made and the file could be opened before; what reaches the disk then reads as the journal's records |
| Reconcile.WorkThenRebuild | include/replay/RecoveryReconciler.h:92-105 | after a worker's whole life, however it ends, the journal has gained a prefix of its fills, and a rebuild goes through exactly if its own write is reported as done and the last rewrite of the store file reached no count or all records |
| Reconcile.TornFlush | include/journal/DurabilityPipeline.h:94-99 | one fill whose flush reports success without its record on the disk: it is journalled, and the rebuild fails |
| Reconcile.RebuildAndReconcile | include/replay/RecoveryReconciler.h:69-105 | exactly when a rebuild and then a reconcile succeed, by how far the rebuild's write got; once the file has been rewritten the report is good exactly if the journal's records are those of the engine's fills on the feed and, for a file without a count, there are none |
| Futex.NoLostWakeup | include/infra/FutexSemaphore.h:28-64 | in every interleaving, while a thread sleeps the available permits are covered by wakes still to come and awake acquirers that have yet to test the count |
| Futex.QuiescentSleepersHaveNoPermit | include/infra/FutexSemaphore.h:43-64 | when nothing but sleepers is left in a call, a sleeper means that there is no permit |
| Futex.PermitsConserved | include/infra/FutexSemaphore.h:66-113 | acquired plus available equals initial plus released, and the waiter count is exact |
| Futex.TakesPermit | include/infra/FutexSemaphore.h:66-76 | with a permit available, an undisturbed acquiring call takes one and returns after two moves |
| Futex.FindsNoPermit | include/infra/FutexSemaphore.h:43-76 | without one, tryAcquire gives up at once, and the other calls sleep after four moves, announced as waiters |
| Futex.LeavesWithPermitUnless | include/infra/FutexSemaphore.h:43-113 | in every run a call ends with a permit taken, or, tryAcquire, on a count of zero, or, tryAcquireFor, when its time is up; acquire ends only with a permit |
| Futex.TakenOnlyByLeaving | include/infra/FutexSemaphore.h:66-76 | a permit is taken only by the call that then returns with it |
| Futex.ReleaseServesSleeper | include/infra/FutexSemaphore.h:28-34 | in every reachable state a release raises the count, sees that a sleeper is announced, and can wake it to find a permit |
| Futex.ReleaseAlone | include/infra/FutexSemaphore.h:28-34 | without waiters a release raises the count and returns after two moves |
| Futex.OnlySleepersWait | include/infra/FutexSemaphore.h:28-113 | in every state a thread that does not sleep can continue its call on its own |
| Futex.SleeperGivesUp | include/infra/FutexSemaphore.h:79-113 | a timed sleeper whose time is up retires as a waiter and leaves without a permit |
| ConnectionPools.EachConnectionInOnePlace | include/store/TradeStore.h:225-319 | in every interleaving each connection is in exactly one place, the queue length is permits plus threads between permit and pop or between push and release, and a pop always finds one |
| ConnectionPools.AcquireAlone | include/store/TradeStore.h:225-319 | in every reachable state with a permit, an undisturbed acquire fills its lease with the connection at the front of the queue |
| ConnectionPools.ResetAlone | include/store/TradeStore.h:225-319 | an undisturbed reset puts the connection at the back of the queue, releases a permit and empties the lease |
| ConnectionPools.MoveHandsOn | include/store/TradeStore.h:225-319 | moving a lease hands its connection on and leaves the source empty |
| StatementCaches.StatementCache.Get | include/store/TradeStore.h:61-74 | the list stays the most recently used distinct keys, newest first, truncated to the capacity; the index maps exactly these keys to their nodes; a hit returns the cached node, a miss a new one |
| StatementCaches.HitIsRecent | include/store/TradeStore.h:63-66 | moving the hit to the front yields the most recently used keys |
| StatementCaches.MissIsRecent | include/store/TradeStore.h:68-72 | dropping the last when full and pushing the new key in front yields the most recently used keys |
| StatementCaches.RecentDistinct | include/store/TradeStore.h:56-88 | the most recently used keys are distinct and are exactly the keys used |
| StatementCaches.RecentByLastUse | include/store/TradeStore.h:61-74 | of two keys in the list the one in front was used later |
| StatementCaches.StatementCache.HoldsAllThatFits | include/store/TradeStore.h:68-72 | a statement leaves the cache only for want of room |

## Left out

- Aliasing of raw pointers: orders are slots of an explicit slab and pointers are slot numbers, so in-place update of orders is modelled, but price levels and maps are values inside the book object.
- Pools of 2^32 slots or more: the engine requires fewer, because a level counts its orders in 32 bits.
- OrderBooks.OrderBook.AddOrder: an order at price 0, which message validation keeps out, is outside its contract; the price-0-means-empty convention of the best-price queries depends on it.
- MatchingEngines.MatchingEngine.MatchLimit: the same for a LIMIT order.
- MatchingEngines.MatchingEngine.MatchAndDrop: the same for an IOC order.
- MatchingEngines.MatchingEngine.ProcessOrder: a LIMIT or IOC order at price 0, which message validation keeps out, is outside its contract.
- MatchingEngines.MatchingEngine.ModifyOrder: the same for a new price of 0.
- Replay.ReplayEngine.ApplyMessage: starts from an engine whose fills have been drained.
- Replay.ReplayEngine.Run: starts from an engine whose fills have been drained; undrained fills of earlier use and the analytics sampled in NORMAL mode are not modelled.
- Recovery.ReplayFills: the default capacity is computed without 64-bit wrap-around and must stay below 2^32.
- Reconcile.Reconcile: the same, for the replay it starts with.
- Reconcile.RebuildAndReconcile: the same.
- Ring.SpscRing.constructor: a requested capacity of 2^63 or more, for which no power of two fits, is outside its contract.
- RingProtocol.RingIsSafe: slot contents and steps are sequentially consistent apart from stale index reads; the full C++ memory model is not modelled.
- Sharded.RunKeeps: one gateway thread routes, starts and stops; a route refused by a full ring changes nothing and is not a step here (it is one in RingedShards).
- RingedShards.RunSimulated: the worker's reading of its stop flag and of its ring are the only synchronisation with the gateway besides thread start and join.
- Pipeline.StoreHoldsJournalled: the pipeline's ring is the inbox of RingIsInbox, and a publish refused by a full ring is not a step; the journal is its record array, which survives a restart.
- TradeStores.ReadAfterWrite: a write that fails part way leaves no count, or the count and a prefix of the records; bytes of a partial record do not count as a record.
- TradeStores.TradeStore.VwapBetween: exact real arithmetic instead of long double; the 64-bit wrap-around of the quantity is kept.
- TradeStores.TradeStore.VwapOf: the same.
- Reconcile.ReplayVwap: the same.
- Futex.NoLostWakeup: `shutdown`, the non-Linux branch, real deadlines and 32-bit overflow of the count are left out; a deadline is a choice of the timed acquirer.
- ConnectionPools.EachConnectionInOnePlace: the semaphore is its permit count; the steps inside acquire and release are those of the futex model.
- StatementCaches.StatementCache.Get: a capacity of 0, for which the source reads the back of an empty list, is outside its contract.
- The SQLite backend, file and memory-mapping calls, byte layout of feed and files, huge pages: operating system and library behaviour.
- Analytics trackers, running statistics, latency histograms, feed generation, benchmarks, thread pinning: statistical or timing-dependent.
- Spread and best-quantity queries read the caches that LevelExact describes; `routeBatch` and `publishBatch` repeat `route` and `publish`.
