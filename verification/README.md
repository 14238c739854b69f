# Verified model of the matching core

This project models the matching core of the exchange in Dafny and proves what its parts promise: the price
tree, the ticket ring, the order book, the price level manager with its queue, and order admission. Two layers
run through it. Pure functions say what an operation does to a value; classes follow the program's own fields
and loops and are proved to do that. The theorems are about the pure functions, and the classes inherit them.

| files | contents |
|---|---|
| `types.dfy`, `order_lists.dfy` | orders, and lists of orders in arrival order |
| `prices.dfy`, `sorted_map.dfy` | the tolerant comparison, entry lists under it, and whole runs against a plain map |
| `skip_nodes.dfy`, `tree_queries.dfy`, `skip_tree.dfy`, `skip_runs.dfy` | the skip list on the heap: chains of nodes, the operations, the queries, runs for every choice of heights |
| `bits.dfy`, `ring_buffer.dfy` | bit arithmetic, and the ring as sequential code |
| `ring_steps.dfy`, `ring_alone.dfy`, `ring_fifo.dfy`, `ring_swap.dfy`, `ring_lone.dfy`, `ring_consumer.dfy` | the ring as interleaved steps: counters and ownership, calls that run alone, handoff in ticket order, conservation, a single consumer |
| `ring_failures.dfy`, `ring_refusals.dfy`, `ring_misses.dfy`, `ring_patterns.dfy` | runs that reorder, duplicate, lose, refuse or miss items, and which ways of using the ring have none, exactly |
| `order_queue.dfy`, `level_spec.dfy`, `level_manager.dfy` | the growable circular queue, and the manager of price levels on values and on the heap |
| `matching.dfy`, `book.dfy`, `mirror.dfy`, `mirror_runs.dfy` | the matching loop, whole books and runs of orders, the buy/sell mirror of orders and cancellations |
| `makers.dfy`, `rested.dfy` | time priority of makers; the order map and how long orders can be cancelled, over whole runs |
| `cancels.dfy`, `book_runs.dfy`, `fill_free.dfy` | cancellation, runs that mix it with fills, and fill-free runs against level managers |
| `order_book.dfy` | the order book on the heap, over two skip trees |
| `admission.dfy` | `ProcessOrder` as interleaved steps |

## Where the code falls short of what it is for

The code is modelled as it is. In these places a property one would expect fails. Each has an input that shows
it and a condition under which the property holds; where a lemma says "exactly", the condition is also necessary.

- A partial fill reduces the level twice (hybird.go:121 and 129, 166 and 174). The trades are right, but the level
  is left with too little, or with nothing while it stays on the book: exactly when an order runs out at or beyond the
  middle of a level (`Matching.StaysStockedUnlessHalfFilled`). The parameter `once` of `Matching`, `Books` and
  `BookRuns` states the theorems for a level reduced once per fill.
- A cancel subtracts the order's original quantity (hybird.go:342) even when fills have taken part of it, and the
  level's total can turn negative, with levels reduced once as well: exactly when `Cancels.Overdrawn` says so
  (`Cancels.CancelKeepsGood`). All totals stay positive and the book uncrossed throughout a run exactly when neither
  happens (`BookRuns.RunsStayGoodUnlessHarmed`).
- Such a level stays in front of its side and blocks it, and a later order can then rest across it: the book is crossed
  (`BookRuns.DoubleReductionCrossesTheBook`, `BookRuns.OverdrawnCancelCrossesTheBook`). That happens in a run exactly
  when some limit order is blocked so and its price has no level yet on its own side
  (`BookRuns.RunsStayUncrossedExactly`).
- Items are not handed over in ticket order once three actors use the ring: a consumer that stalls is overtaken by the
  next one of its slot, which gets its item (`RingFailures.OvertakingReorders`), and so with producers
  (`RingFailures.LappedPushReorders`). Over all runs the order is kept exactly with at most two users, such as one
  producer and one consumer (`RingPatterns.NeverReordersExactly`).
- Two consumers, one of them using `Pop`, can return the same item, because the load and the clearing store are
  separate (`RingFailures.PopDuplicates`); `RingPatterns.NeverDuplicatesExactly` has the exact condition.
- A producer stalled between its claim and its store can be lapped, and an item is lost
  (`RingFailures.LappedPushLosesAnItem`); two consumers can lose one as well (`RingFailures.PopLosesAnItem`);
  `RingPatterns.NeverLosesExactly` has the exact condition.
- A push can be refused on an empty ring after a stale load of `head` (`RingRefusals.RefusedOnEmptyRing`), exactly
  unless there is at most one producer or no consumer (`RingPatterns.NeverRefusesExactly`).
- `Pop` and `BatchPop` can return nothing although the ring held an item all through the call
  (`RingMisses.CallMisses`), exactly unless there is at most one consumer or a single slot
  (`RingPatterns.NeverMissesExactly`).
- Once 2^64 items have been pushed, `head` has wrapped around and `tail` has not: `Pop` and `BatchPop` then find the ring
  empty for good, whatever it holds (`RingBuffers.RingBuffer.Pop`).
- A size of 0, or above 2^63, gives a ring of capacity 0, which refuses every push.
- The level manager's indexes stop agreeing when an id is added while another order with it is live, or when
  quantities that sum to zero empty a level that still has orders (`LevelSpec.RepeatedIdStrandsAnOrder`,
  `LevelSpec.ZeroQuantityLosesItsLevel`); `LevelSpec.Keeps` is the exact condition of a step
  (`LevelSpec.RunsAgreeUnlessBroken`).
- Off a tick grid, `Remove(p)` can leave `p` findable (`Prices.GoneAfterRemove`), and a resting order can become
  impossible to cancel (`Cancels.FoundUnlessShadowed`).
- `Validate` refuses every descending tree whose first price is above the tolerance, so
  `ValidateOrderBooks` refuses every book with an ordinary bid.
- The two deletes of a rolled-back admission can remove the state of an order that another call has since pushed
  (`Admission.RollbackCanLoseAState`), exactly in the runs `Admission.KeptUnlessCost` describes, which exist as soon as
  there are two callers and a symbol (`Admission.NeverLosesStatesExactly`). It cannot happen if calls on one id do not
  overlap (`Admission.AloneKeepsStates`).

## Model

| member | source | states |
|---|---|---|
| `Prices.Compare` | app/matching/internal/orderbook/skip_tree.go:77-93 | the comparison is zero exactly when the prices are within 1e-10 of each other, and negative exactly when the first comes before the second in the tree's orientation by more than that |
| `Prices.RankSplits` | app/matching/internal/orderbook/skip_tree.go:102-107 | the search predicate is monotone along an ordered chain: exactly the entries before the rank come before the price |
| `Prices.OrderedKeysAreApart` | app/matching/internal/orderbook/skip_tree.go:77-93 | although ties are not transitive, two stored keys are always more than 1e-10 apart |
| `Prices.TiesAreNotTransitive` | app/matching/internal/orderbook/skip_tree.go:77-93 | three prices show that ties are not transitive |
| `Prices.InsertKeepsOrdered` | app/matching/internal/orderbook/skip_tree.go:96-142 | inserting any real price keeps strict tree order |
| `Prices.RemoveKeepsOrdered` | app/matching/internal/orderbook/skip_tree.go:145-179 | removing any real price keeps strict tree order |
| `Prices.GetAfterInsert` | app/matching/internal/orderbook/skip_tree.go:96-199 | a lookup of the price just inserted finds the inserted level, for all reals |
| `Prices.GetElsewhereAfterInsert` | app/matching/internal/orderbook/skip_tree.go:96-199 | an insertion does not disturb lookups of prices that tie neither with it nor with the key it hit |
| `Prices.GoneAfterRemove` | app/matching/internal/orderbook/skip_tree.go:145-199 | after a removal that hits, the price is no longer found exactly when the next key is beyond the tolerance |
| `Prices.RemoveCanLeaveThePriceFindable` | app/matching/internal/orderbook/skip_tree.go:145-199 | an input where a price is still found after it was removed |
| `SortedMaps.RunIsOrdered` | app/matching/internal/orderbook/skip_tree.go:96-179 | strict order after every run of inserts, removals and clears of arbitrary prices |
| `SortedMaps.RunKeysAreApart` | app/matching/internal/orderbook/skip_tree.go:77-179 | the gap of more than 1e-10 between any two keys after every such run |
| `SortedMaps.ListingIsUnique` | app/matching/internal/orderbook/skip_tree.go:96-206 | an ordered listing of a map is unique, so its order and length are those of the map |
| `SortedMaps.RunRefinesMap` | app/matching/internal/orderbook/skip_tree.go:96-206 | on a tick grid, every run leaves the ordered listing of the plain map that the same run builds, with its size |
| `SortedMaps.GetRefinesMap` | app/matching/internal/orderbook/skip_tree.go:182-199 | on a tick grid, lookups after every run are map lookups |
| `SortedMaps.RunsWithEqualMapsAgree` | app/matching/internal/orderbook/skip_tree.go:96-206 | two runs that build the same map leave the same list, whatever the order of their operations |
| `SkipNodes.ChainIsSubsequence` | app/matching/internal/orderbook/skip_tree.go:96-179 | following the forward pointers of a chain visits exactly the level-0 nodes tall enough for it, in order |
| `SkipTrees.SkipTree.Shape` | app/matching/internal/orderbook/skip_tree.go:96-179 | in every reachable tree each node has a slot for each of its chains, each chain of pointers from the header is that subsequence of level 0, header slots above the level in use are nil, and `size` counts the nodes |
| `SkipTrees.SkipTree.constructor` | app/matching/internal/orderbook/skip_tree.go:39-62 | a new tree is empty |
| `SkipTrees.SkipTree.RandomLevel` | app/matching/internal/orderbook/skip_tree.go:65-74 | the height is the number of successful draws before the first failure, capped at `maxLevel` |
| `SkipTrees.EveryHeightComesOut` | app/matching/internal/orderbook/skip_tree.go:65-74 | every height up to `maxLevel` comes out for some draws |
| `SkipTrees.SkipTree.FindPredecessors` | app/matching/internal/orderbook/skip_tree.go:96-110 | the descent terminates, stays in bounds, and finds on every chain the last node before the price |
| `SkipTrees.SkipTree.Insert` | app/matching/internal/orderbook/skip_tree.go:96-142 | keeps the shape of all chains, heights, slots, level and size, and acts on the entries as `Prices.Insert`, for every random height |
| `SkipTrees.SkipTree.InsertDrawn` | app/matching/internal/orderbook/skip_tree.go:96-142 | for given draws of the height: a stored price keeps its node, any other gets one new node at its rank, of exactly the drawn height, and the level in use becomes the greater of the two |
| `SkipTrees.SkipTree.Remove` | app/matching/internal/orderbook/skip_tree.go:145-179 | keeps the shape, including the lowered level, takes out exactly the node of the price, and acts on the entries as `Prices.Remove` |
| `SkipTrees.SkipTree.Get` | app/matching/internal/orderbook/skip_tree.go:182-199 | returns the level that `Prices.Get` selects |
| `SkipTrees.SkipTree.Len` | app/matching/internal/orderbook/skip_tree.go:202-206 | `size` is the number of level-0 entries |
| `SkipTrees.SkipTree.Clear` | app/matching/internal/orderbook/skip_tree.go:358-368 | leaves the empty tree |
| `SkipTrees.SkipTree.MinPriceNode` | app/matching/internal/orderbook/skip_tree.go:209-234 | the level of least price, in both orientations; nil exactly on an empty tree |
| `SkipTrees.SkipTree.MaxPriceNode` | app/matching/internal/orderbook/skip_tree.go:237-262 | the level of greatest price, in both orientations; nil exactly on an empty tree |
| `SkipTrees.SkipTree.GetTopLevels` | app/matching/internal/orderbook/skip_tree.go:265-297 | the first min(limit, size) levels in tree order, none for a negative limit |
| `SkipTrees.SkipTree.RangeFrom` | app/matching/internal/orderbook/skip_tree.go:314-333 | visits exactly the entries at or after the price, in order, up to the first refusal, for callbacks whose answers may depend on all they have been called on |
| `SkipTrees.SkipTree.RangeBetween` | app/matching/internal/orderbook/skip_tree.go:336-355 | visits exactly the entries in range, in order, up to the first refusal, for such callbacks |
| `SkipTrees.SkipTree.GetTotalQuantity` | app/matching/internal/orderbook/skip_tree.go:416-429 | the sum of the levels' quantities |
| `SkipTrees.SkipTree.GetOrderCount` | app/matching/internal/orderbook/skip_tree.go:432-445 | the sum of the levels' order counts |
| `SkipTrees.SkipTree.Validate` | app/matching/internal/orderbook/skip_tree.go:464-490 | on every reachable tree, true exactly when it is empty or its first price does not come before the header's key 0 |
| `SkipRuns.ValidateAscending` | app/matching/internal/orderbook/skip_tree.go:464-490 | so it accepts every ascending tree of positive prices |
| `TreeQueries.FromIsSuffix` | app/matching/internal/orderbook/skip_tree.go:314-333 | the entries at or after a price are the suffix from its rank |
| `TreeQueries.BetweenStartsAtRank` | app/matching/internal/orderbook/skip_tree.go:336-355 | the entries in range start at the rank of the lower bound |
| `TreeQueries.BetweenIsStretch` | app/matching/internal/orderbook/skip_tree.go:336-355 | the entries in range are one stretch of the tree: exactly those with a price between the bounds, relaxed by the tolerance |
| `TreeQueries.SumsAdd` | app/matching/internal/orderbook/skip_tree.go:416-445 | both totals of two parts of a tree add up |
| `SkipRuns.Apply` | app/matching/internal/orderbook/skip_tree.go:96-179 | whole runs on the pointer structure leave the entries `SortedMaps.Run` computes without looking at heights |
| `SkipRuns.ApplyThenGet` | app/matching/internal/orderbook/skip_tree.go:96-206 | on a tick grid, a tree driven through any run answers `Get` and `Len` as a map does |
| `Bits.NextPowerOfTwo` | app/pkg/lockfree/ringbuffer.go:37-47 | for 1 <= n <= 2^63 the least power of two not below n; for every other 64-bit n it wraps to 0 |
| `Bits.PowerTest` | app/pkg/lockfree/ringbuffer.go:23-26 | `size & (size - 1) == 0` holds exactly for 0 and the powers of two, for every 64-bit size |
| `Bits.MaskIsMod` | app/pkg/lockfree/ringbuffer.go:63-63 | `ticket & mask` is the ticket modulo the capacity |
| `Bits.ConsecutiveTicketsDistinct` | app/pkg/lockfree/ringbuffer.go:63-63 | tickets less than a capacity apart have distinct slots |
| `RingBuffers.RingBuffer.constructor` | app/pkg/lockfree/ringbuffer.go:23-35 | an empty queue for every 64-bit size: its capacity is the least power of two not below the size, or 0 for size 0 and sizes above 2^63 |
| `RingBuffers.RingBuffer.Push` | app/pkg/lockfree/ringbuffer.go:51-78 | puts the item at the end, or returns false and changes nothing exactly when full, also when `head` wraps around at 2^64; the wait for an empty slot ends at once |
| `RingBuffers.RingBuffer.Pop` | app/pkg/lockfree/ringbuffer.go:81-102 | takes the front, and the wait for a filled slot ends at once; returns nil exactly on an empty ring or once `head` has wrapped around |
| `RingBuffers.RingBuffer.BatchPop` | app/pkg/lockfree/ringbuffer.go:106-151 | takes the first min(max, size) items, as that many single pops would; none once `head` has wrapped around |
| `RingBuffers.RingBuffer.Size` | app/pkg/lockfree/ringbuffer.go:154-161 | the number of items between the counters, 0 once `head` has wrapped around |
| `RingBuffers.RingBuffer.IsFull` | app/pkg/lockfree/ringbuffer.go:169-171 | true exactly when the next push is refused and `head` has not wrapped around |
| `RingSteps.DecideIsOk` | app/pkg/lockfree/ringbuffer.go:53-127 | despite stale loads, a successful claim finds room or takes only tickets below `head` |
| `RingSteps.CountersAlways` | app/pkg/lockfree/ringbuffer.go:51-151 | tail <= head <= tail + capacity in every interleaving of any number of producers and consumers |
| `RingSteps.CountersGrow` | app/pkg/lockfree/ringbuffer.go:51-151 | both counters only grow, and a claimed ticket keeps its owner and item |
| `RingSteps.TicketsHaveOneOwner` | app/pkg/lockfree/ringbuffer.go:61-127 | no two actors ever hold the same ticket |
| `RingSteps.BatchClaimSize` | app/pkg/lockfree/ringbuffer.go:118-127 | a batch that claims takes everything its two loads show, up to `max` |
| `RingSteps.CallsKeepTheirArguments` | app/pkg/lockfree/ringbuffer.go:53-150 | through all its retries a push keeps its item and a batch its limit |
| `RingAlone.PushAlone` | app/pkg/lockfree/ringbuffer.go:51-78 | run without interruption on a ring at rest with room, the steps of a push append its item and nothing else |
| `RingAlone.PushAloneWhenFull` | app/pkg/lockfree/ringbuffer.go:57-59 | on a full ring they return false and leave the state as it was |
| `RingAlone.PopAlone` | app/pkg/lockfree/ringbuffer.go:81-102 | run without interruption, the steps of a pop take the front |
| `RingAlone.PopAloneWhenEmpty` | app/pkg/lockfree/ringbuffer.go:85-87 | on an empty ring they return nothing and leave the state as it was |
| `RingAlone.BatchAlone` | app/pkg/lockfree/ringbuffer.go:106-151 | run without interruption, the steps of a batch claim, take in order and return the first min(max, size) items |
| `RingAlone.SeekerSettles` | app/pkg/lockfree/ringbuffer.go:53-127 | from any state, whatever stale loads it has, an actor left alone on its way to a ticket has one, or has returned, within five steps |
| `RingRefusals.RefusalMeaning` | app/pkg/lockfree/ringbuffer.go:53-77 | in every run a push returns false exactly when, as it loaded `tail`, the ring was full or `tail` had passed its stale `head`; otherwise it gets the ticket it loaded if nobody claimed in between, and starts over if somebody did |
| `RingRefusals.RefusedOnEmptyRing` | app/pkg/lockfree/ringbuffer.go:54-59 | at every capacity, with any two producers and any consumer, which may be one of them, in some run a push returns false on an empty ring |
| `RingFifo.OwnedAlways` | app/pkg/lockfree/ringbuffer.go:51-151 | in every interleaving tickets are owned and nothing is returned that was not pushed |
| `RingFifo.StepRefinesQueue` | app/pkg/lockfree/ringbuffer.go:51-151 | each step of the ring is a step of a bounded queue: claims append or take from the front, all else leaves it |
| `RingFifo.HandoffIsFifo` | app/pkg/lockfree/ringbuffer.go:51-151 | if no claim laps, the consumer with ticket t gets exactly the item of the producer with ticket t |
| `RingFifo.ClaimDecidesResult` | app/pkg/lockfree/ringbuffer.go:91-99 | what a claimed ticket delivers is fixed by its place in the queue when it was claimed |
| `RingFifo.TwoRunNoLap` | app/pkg/lockfree/ringbuffer.go:51-151 | when only two actors use the ring, whatever they call, no claim laps |
| `RingFifo.TwoActorsHandoff` | app/pkg/lockfree/ringbuffer.go:51-151 | so any two, such as one producer and one consumer, have first-in first-out handoff with no further hypothesis |
| `RingSwap.ConservedAlways` | app/pkg/lockfree/ringbuffer.go:51-151 | in every run in which no item goes from under a `Pop` that has loaded it, each accepted item stays in exactly one place |
| `RingSwap.SwapRunsAreFirm` | app/pkg/lockfree/ringbuffer.go:106-151 | so it is in every run whose consumers all use `BatchPop` |
| `RingLone.OneWaits` | app/pkg/lockfree/ringbuffer.go:51-151 | with no push under way and nothing lost, no two consumer tickets wait for the same slot |
| `RingLone.LoneRunsAreFirm` | app/pkg/lockfree/ringbuffer.go:51-151 | so it is too when a single producer alone uses `Pop`, with any number of other consumers using `BatchPop` |
| `RingSwap.NoDuplication` | app/pkg/lockfree/ringbuffer.go:51-151 | in such runs each item is returned at most once, and each returned item was pushed |
| `RingSwap.AcceptedIsSomewhere` | app/pkg/lockfree/ringbuffer.go:51-151 | in such runs each accepted item is pending with its producer, in its slot, with exactly one ticket, or overwritten |
| `RingSwap.LostByOverwriteOnly` | app/pkg/lockfree/ringbuffer.go:62-68 | in such runs a step loses an item exactly when it is a store into the slot that still holds it |
| `RingSwap.SingleProducerLosesNothing` | app/pkg/lockfree/ringbuffer.go:51-151 | in such runs a single producer loses nothing |
| `RingConsumer.SingleConsumerNoDuplication` | app/pkg/lockfree/ringbuffer.go:51-151 | with a single consumer, using `Pop` or `BatchPop`, and any number of producers, no item is returned twice in any interleaving |
| `RingFailures.PopDuplicates` | app/pkg/lockfree/ringbuffer.go:91-99 | at every capacity, with any producer, any consumer using `Pop` and any second consumer, some run returns one item twice |
| `RingFailures.PopLosesAnItem` | app/pkg/lockfree/ringbuffer.go:91-99 | and some run loses an accepted item |
| `RingFailures.LappedPushLosesAnItem` | app/pkg/lockfree/ringbuffer.go:62-68 | at every capacity, with any two producers and any other consumer, some run loses an accepted item, even if all consumers swap |
| `RingFailures.LappedPushReorders` | app/pkg/lockfree/ringbuffer.go:62-68 | and some run returns an item under another ticket than it was pushed under |
| `RingFailures.OvertakingReorders` | app/pkg/lockfree/ringbuffer.go:81-151 | so does some run of any producer and any two other consumers, using `Pop` or `BatchPop` |
| `RingMisses.CallMisses` | app/pkg/lockfree/ringbuffer.go:82-116 | at every capacity of at least 2, with any two consumers using `Pop` or `BatchPop` and any producer, which may be one of them, some call returns nothing though the ring held an item from before its start to its return |
| `RingPatterns.NeverReordersExactly` | app/pkg/lockfree/ringbuffer.go:51-151 | over all runs of given producers, `Pop` consumers and `BatchPop` consumers, at any capacity: every consumer ticket gets the item of the same producer ticket exactly when there is no producer, no consumer, or at most two users |
| `RingPatterns.NeverDuplicatesExactly` | app/pkg/lockfree/ringbuffer.go:51-151 | likewise no run returns an item twice exactly when there is no producer, at most one consumer, none that uses `Pop`, at most two users, or a single producer that alone uses `Pop` |
| `RingPatterns.NeverLosesExactly` | app/pkg/lockfree/ringbuffer.go:51-151 | likewise no run loses an accepted item exactly when there is no producer, no consumer, at most two users, or a single producer besides whom nobody uses `Pop` |
| `RingPatterns.NeverRefusesExactly` | app/pkg/lockfree/ringbuffer.go:54-77 | likewise no push returns false with room in the ring when it loaded `tail` exactly when there is at most one producer or no consumer |
| `RingPatterns.NeverMissesExactly` | app/pkg/lockfree/ringbuffer.go:81-116 | likewise no call returns nothing while the ring holds an item all through it, its return included, exactly when there is no producer, at most one consumer, or a single slot |
| `RingRefusals.LoneProducerIsRefusedWhenFull` | app/pkg/lockfree/ringbuffer.go:54-59 | a lone producer's push returns false exactly when the ring was full as it loaded `tail` |
| `OrderQueues.OrderQueue.constructor` | app/matching/internal/orderbook/price_level.go:156-163 | an empty queue of the given capacity |
| `OrderQueues.OrderQueue.Push` | app/matching/internal/orderbook/price_level.go:166-183 | appends, also across doubling with a wrapped head; the array doubles exactly when it was full |
| `OrderQueues.OrderQueue.Pop` | app/matching/internal/orderbook/price_level.go:186-200 | takes the front order, none when empty |
| `OrderQueues.OrderQueue.Peek` | app/matching/internal/orderbook/price_level.go:203-212 | shows the front order, none when empty |
| `OrderQueues.OrderQueue.Remove` | app/matching/internal/orderbook/price_level.go:215-240 | deletes the first order with the id, keeps the others in order, and says whether there was one |
| `OrderQueues.OrderQueue.Size` | app/matching/internal/orderbook/price_level.go:243-248 | the number of orders |
| `OrderQueues.Straightened` | app/matching/internal/orderbook/price_level.go:170-178 | the two copies of a growing push keep the orders in order from slot 0 |
| `LevelSpec.AddAgrees` | app/matching/internal/orderbook/price_level.go:39-74 | adding an order keeps all four indexes and both totals in agreement with the list of live orders exactly when its id is not live, or only as the very same order |
| `LevelSpec.RemoveAgrees` | app/matching/internal/orderbook/price_level.go:77-122 | a removal succeeds exactly for live orders, and keeps agreement exactly when the id is not live a second time and the level's total reaches zero just when its last order leaves |
| `LevelSpec.RemovalAnywhere` | app/matching/internal/orderbook/price_level.go:77-122 | in any state, agreeing or not: a removal takes the level and the queue of its price exactly if the level's total was the order's quantity, otherwise the first order with the id from both, and leaves the other prices alone |
| `LevelSpec.GoneWhenEmpty` | app/matching/internal/orderbook/price_level.go:97-103 | with positive quantities a level's total reaches zero exactly when its last order leaves |
| `LevelSpec.RunsAgreeUnlessBroken` | app/matching/internal/orderbook/price_level.go:39-135 | over every run of adds and removes, levels, order map, queues and totals are projections of the one list of live orders throughout exactly when every step meets its condition |
| `LevelSpec.RunAgrees` | app/matching/internal/orderbook/price_level.go:39-135 | so they are after every run that adds positive quantities under ids not live at that moment, whatever it removes |
| `LevelSpec.EarliestIsOldest` | app/matching/internal/orderbook/price_level.go:125-135 | after every run whose steps meet their conditions, the earliest order at a price is the oldest one not yet removed, none exactly if there is none |
| `LevelSpec.AgreementDetermines` | app/matching/internal/orderbook/price_level.go:39-122 | the live orders determine every index |
| `LevelSpec.AddThenRemoveRestores` | app/matching/internal/orderbook/price_level.go:39-122 | adding an order under a new id and removing it restores every index exactly when the orders already at its price do not sum to zero, unless there are none |
| `LevelSpec.RepeatedIdStrandsAnOrder` | app/matching/internal/orderbook/price_level.go:57-61 | with an id added twice at two prices, one order can no longer be removed |
| `LevelSpec.ZeroQuantityLosesItsLevel` | app/matching/internal/orderbook/price_level.go:97-103 | with a zero quantity, removing another order deletes the level under it |
| `LevelManagers.PriceLevelManager.constructor` | app/matching/internal/orderbook/price_level.go:30-36 | an empty manager |
| `LevelManagers.PriceLevelManager.AddOrder` | app/matching/internal/orderbook/price_level.go:39-74 | the objects step as `LevelSpec.Add` |
| `LevelManagers.PriceLevelManager.RemoveOrder` | app/matching/internal/orderbook/price_level.go:77-122 | the objects step as `LevelSpec.Remove`, and the result says whether the order was found |
| `LevelManagers.PriceLevelManager.GetEarliestOrder` | app/matching/internal/orderbook/price_level.go:125-135 | returns what `LevelSpec.Earliest` says |
| `LevelManagers.PriceLevelManager.GetLevel` | app/matching/internal/orderbook/price_level.go:138-143 | returns the level object at a price, nil exactly if there is none |
| `LevelManagers.PriceLevelManager.GetTotalQuantity` | app/matching/internal/orderbook/price_level.go:146-148 | the running total |
| `LevelManagers.PriceLevelManager.GetOrderCount` | app/matching/internal/orderbook/price_level.go:151-153 | the running count |
| `LevelManagers.ApplyAll` | app/matching/internal/orderbook/price_level.go:39-122 | a manager driven through any run holds the value of that run |
| `Matching.TakerIsConserved` | app/matching/internal/orderbook/hybird.go:95-182 | traded quantity plus remainder is the order's quantity, and every trade is positive |
| `Matching.TradesAreAPrefix` | app/matching/internal/orderbook/hybird.go:98-134 | trades take a best-first prefix of the levels, one a level, within the limit; all but the last take the whole level; a level partly taken keeps its price and orders, and its total loses twice the quantity traded, stopping at zero; the others stay as they were |
| `Matching.MatchEnds` | app/matching/internal/orderbook/hybird.go:98-114 | a match stops only when the order is filled, the side is empty, its best level has nothing left, or a limit order does not accept its price; no trade of a limit order is past its limit |
| `Matching.PricesWorsen` | app/matching/internal/orderbook/hybird.go:98-134 | on any ordered side, whatever its totals, trade prices strictly worsen, by more than 1e-10 |
| `Matching.FillIsMaximal` | app/matching/internal/orderbook/hybird.go:98-114 | on any ordered side, an order left unfilled has no level left that it could trade with exactly when no empty level blocks it |
| `Matching.FillIsExact` | app/matching/internal/orderbook/hybird.go:95-182 | on any ordered side the traded quantity is the smaller of what is asked, if positive, and what rests at acceptable prices before the first empty level |
| `Matching.EveryLevelGivesItsShare` | app/matching/internal/orderbook/hybird.go:98-134 | closed form on any ordered side: what each level gives, from the totals of the levels before it |
| `Matching.ReductionOnlyTouchesOneTotal` | app/matching/internal/orderbook/hybird.go:119-130 | reducing the level once or twice gives the same trades, remainder, queues and other levels |
| `Matching.StaysStockedUnlessHalfFilled` | app/matching/internal/orderbook/hybird.go:119-130 | as the code stands, no empty level is left exactly when the order does not run out at or beyond the middle of a level |
| `Matching.StaysTidy` | app/matching/internal/orderbook/hybird.go:119-130 | price order and filing are kept on any ordered side, with levels reduced once or as the code stands |
| `Matching.StaysStockedOnce` | app/matching/internal/orderbook/hybird.go:119-130 | with levels reduced once, no empty level is ever left |
| `Matching.LadderIsConservedOnce` | app/matching/internal/orderbook/hybird.go:119-130 | with levels reduced once a match takes from any side exactly what it traded |
| `Matching.LadderIsConserved` | app/matching/internal/orderbook/hybird.go:119-130 | as the code stands, it does exactly when the order does not run out inside a level |
| `Matching.WalkOneMore` | app/matching/internal/orderbook/hybird.go:98-134 | a turn of the loop leaves the outcome of the whole match as it was |
| `Books.RestOnAdds` | app/matching/internal/orderbook/hybird.go:212-246 | resting adds its quantity to the side, whether or not the level existed |
| `Books.MatchStops` | app/matching/internal/orderbook/hybird.go:98-114 | a match stops with something left in front of a level it could trade with exactly when an empty level blocks it; otherwise it is filled, the side is empty, or the limit is not met |
| `Makers.MakersAreFronts` | app/matching/internal/orderbook/hybird.go:116-134 | a match names as maker of each trade the front of the queue at its price, or nobody if there is none; a price taken whole loses its queue, a price partly taken loses the front, every other price keeps its queue |
| `Makers.RunsNameInOrder` | app/matching/internal/orderbook/hybird.go:185-261 | first come, first named: after every run the makers named at a price since its queue was last dropped are the orders that rested there while there was room, in order of arrival, and the rest of them are the queue |
| `Makers.NextMakerIsNextInLine` | app/matching/internal/orderbook/hybird.go:185-209 | so the next trade at a price names the order that has waited there longest |
| `Makers.FirstMakerIsOldest` | app/matching/internal/orderbook/hybird.go:185-246 | the first maker named at a price is the order that opened its queue |
| `RestedOrders.RestingIsFiled` | app/matching/internal/orderbook/hybird.go:212-246 | what a match leaves of a limit order is in the order map under its id, last in the level found at its price with its quantity on top, and can be cancelled |
| `RestedOrders.RestingDisturbsNothing` | app/matching/internal/orderbook/hybird.go:212-246 | a match changes no other entry of the order map and no other price of the order's own side |
| `RestedOrders.OrderMapExactly` | app/matching/internal/orderbook/hybird.go:236-355 | after any run the order map has exactly the orders that rested and have not been cancelled, filled or not; of several under one id, the last |
| `RestedOrders.CancellableWhileLevelStays` | app/matching/internal/orderbook/hybird.go:212-362 | on a tick grid an order that rested can be cancelled for exactly as long as its side keeps a level at its price, over any run |
| `Books.MatchCrossesExactly` | app/matching/internal/orderbook/hybird.go:51-92 | from any uncrossed book, with levels in any state, a match leaves best bid below best ask exactly when its order does not open a level of its own across an empty one |
| `Books.MatchKeepsTidy` | app/matching/internal/orderbook/hybird.go:51-92 | a match keeps both sides in price order and filed under their prices, whatever their totals |
| `Books.MatchKeepsGood` | app/matching/internal/orderbook/hybird.go:51-92 | a match keeps the book sound and uncrossed if levels are reduced once; as the code stands, exactly when it does not half-fill a level |
| `Books.MatchConserves` | app/matching/internal/orderbook/hybird.go:51-92 | the resting quantity moves by what rests less what trades: of any book if levels are reduced once; as the code stands, exactly when no level is partly filled |
| `Books.QueueCapacity` | app/matching/internal/orderbook/hybird.go:238-243 | a per-price queue asked for with size 1000 has 1024 slots |
| `Mirrors.WalkMirrors` | app/matching/internal/orderbook/hybird.go:95-182 | negating prices and swapping sides turns one matching loop into the other: same quantities, negated prices, same remainder, mirrored side and queues |
| `Mirrors.MatchMirrors` | app/matching/internal/orderbook/hybird.go:51-246 | the same for a whole match with resting |
| `Mirrors.GoodMirrors` | app/matching/internal/orderbook/hybird.go:51-246 | the mirror of a sound uncrossed book is sound and uncrossed |
| `MirrorRuns.CancelMirrors` | app/matching/internal/orderbook/hybird.go:312-362 | a cancellation and its mirror image find or miss the order together and leave mirrored books |
| `MirrorRuns.RunsWithCancelsMirror` | app/matching/internal/orderbook/hybird.go:51-362 | every run of orders and cancellations and its mirror image leave mirrored books |
| `Cancels.SecondCancelFails` | app/matching/internal/orderbook/hybird.go:312-362 | a cancelled order cannot be cancelled again |
| `Cancels.CancelConserves` | app/matching/internal/orderbook/hybird.go:337-348 | a cancellation takes exactly the order's original quantity from what rests |
| `Cancels.CancelKeepsTidy` | app/matching/internal/orderbook/hybird.go:312-362 | a cancellation keeps both sides in price order and filed under their prices, whatever their totals |
| `Cancels.CancelStaysUncrossed` | app/matching/internal/orderbook/hybird.go:312-362 | a cancellation never crosses the book, whatever its levels hold |
| `Cancels.CancelKeepsGood` | app/matching/internal/orderbook/hybird.go:312-362 | a cancellation keeps the book sound and uncrossed exactly when the level still has the order's original quantity |
| `BookRuns.StepKeepsGood` | app/matching/internal/orderbook/hybird.go:51-362 | either operation keeps the book sound and uncrossed exactly when it neither half-fills nor overdraws a level |
| `BookRuns.VersionCounts` | app/matching/internal/orderbook/hybird.go:86-355 | every order counts one version, and so does every cancellation that finds its order |
| `BookRuns.RunsStayGoodUnlessHarmed` | app/matching/internal/orderbook/hybird.go:51-362 | the same throughout every run that mixes orders, fills and cancellations, with levels reduced once or as the code stands |
| `BookRuns.OrdersAloneStayGood` | app/matching/internal/orderbook/hybird.go:51-92 | levels reduced once: sound and uncrossed after every run of orders alone |
| `BookRuns.RunsStayUncrossedExactly` | app/matching/internal/orderbook/hybird.go:51-362 | over every run, half-filled, overdrawn or not, best bid stays below best ask throughout exactly when no order of the run opens a level of its own across an empty one |
| `BookRuns.DoubleReductionCrossesTheBook` | app/matching/internal/orderbook/hybird.go:119-130 | three orders after which the book is crossed as the code stands, and empty with levels reduced once |
| `BookRuns.RunsStayTidy` | app/matching/internal/orderbook/hybird.go:51-362 | after every run of orders and cancellations both sides are in strict price order and filed under their prices |
| `BookRuns.EveryRunWorsens` | app/matching/internal/orderbook/hybird.go:98-182 | after every run, half-filled, overdrawn or not, the trades of the next order strictly worsen in price |
| `BookRuns.EveryRunFills` | app/matching/internal/orderbook/hybird.go:95-182 | after every run the next order trades exactly what it asks for, capped by what rests at acceptable prices before the first empty level, and leaves a level it could trade with exactly when an empty one blocks it |
| `BookRuns.RunsBalanceUnlessRunOut` | app/matching/internal/orderbook/hybird.go:51-362 | every unit asked for rests, was dropped with a market order, was cancelled, or was traded as taker or as maker: throughout a run exactly when levels are reduced once or no order of the run runs out inside a level |
| `BookRuns.RunsBalance` | app/matching/internal/orderbook/hybird.go:51-362 | so with levels reduced once it is after every run, overdrawn cancels included |
| `BookRuns.OverdrawnCancelCrossesTheBook` | app/matching/internal/orderbook/hybird.go:337-348 | four orders and cancellations after which the book is crossed, even with levels reduced once |
| `FillFreeRuns.FillFreeStaysGood` | app/matching/internal/orderbook/hybird.go:212-362 | fill-free runs on a tick grid, with any cancellations, harm nothing and keep the book sound and uncrossed |
| `FillFreeRuns.PlacedWhole` | app/matching/internal/orderbook/hybird.go:51-92 | an order that nothing opposite crosses trades nothing and rests in full |
| `FillFreeRuns.PassedBy` | app/matching/internal/orderbook/hybird.go:51-92 | an order without quantity, or a market order with nothing opposite, trades nothing and only counts a version |
| `FillFreeRuns.CancelShowsBoth` | app/matching/internal/orderbook/hybird.go:312-362 | in fill-free books on a tick grid exactly the orders on the book can be cancelled, and cancelling is the removal of a level manager |
| `FillFreeRuns.RunAgreesWithManagers` | app/matching/internal/orderbook/hybird.go:212-362 | after every fill-free run on a tick grid each side lists the levels of a level manager given the same adds and removes |
| `FillFreeRuns.LevelsAreLiveOrders` | app/matching/internal/orderbook/hybird.go:212-362 | then a level exists exactly when live orders are at its price, and its total is the sum of their quantities |
| `FillFreeRuns.PlaceThenCancelRestores` | app/matching/internal/orderbook/hybird.go:212-362 | then placing an order and cancelling it restores both sides and the order map |
| `Cancels.FoundUnlessShadowed` | app/matching/internal/orderbook/hybird.go:332-335 | a cancel finds a resting order exactly when no level within the tolerance of its price comes before its own |
| `BookRuns.OffGridCancelFails` | app/matching/internal/orderbook/hybird.go:332-361 | a run off the grid after which a resting order cannot be cancelled |
| `OrderBooks.HybridOrderBook.constructor` | app/matching/internal/orderbook/hybird.go:36-48 | an empty book |
| `OrderBooks.HybridOrderBook.Match` | app/matching/internal/orderbook/hybird.go:51-92 | the trees, level objects, order map, queues and version step as `Books.Match`, with its trades and remainder |
| `OrderBooks.HybridOrderBook.MatchBuyOrder` | app/matching/internal/orderbook/hybird.go:95-137 | the loop yields the trades, remainder, asks and queues of `Matching.Walk` |
| `OrderBooks.HybridOrderBook.MatchSellOrder` | app/matching/internal/orderbook/hybird.go:140-182 | the loop yields the trades, remainder, bids and queues of `Matching.Walk` |
| `OrderBooks.HybridOrderBook.ExecuteTrade` | app/matching/internal/orderbook/hybird.go:185-209 | one trade at the level's price; its maker is the first order in that price's queue, which leaves the queue, or nobody if the queue is missing or empty |
| `OrderBooks.HybridOrderBook.AddOrderToBook` | app/matching/internal/orderbook/hybird.go:212-246 | the order is in the order map, and at the end of the queue of its price unless that is full; trees and levels step as `Books.Rest` |
| `OrderBooks.HybridOrderBook.PopEarliest` | app/matching/internal/orderbook/hybird.go:249-261 | takes the first order from the queue at a price; none, and no change, if the queue is missing or empty |
| `OrderBooks.HybridOrderBook.UpdatePriceLevel` | app/matching/internal/orderbook/hybird.go:264-269 | the total moves by the delta and stops at zero |
| `OrderBooks.HybridOrderBook.CancelOrder` | app/matching/internal/orderbook/hybird.go:312-362 | the objects step as `Cancels.Cancel`, and the result says whether the order was found |
| `OrderBooks.HybridOrderBook.GetTopLevels` | app/matching/internal/orderbook/hybird.go:287-301 | the first min(depth, size) levels of a side with price, quantity and count |
| `OrderBooks.HybridOrderBook.GetBestBid` | app/matching/internal/orderbook/hybird.go:365-379 | price and quantity of the best bid, zeros without one |
| `OrderBooks.HybridOrderBook.GetBestAsk` | app/matching/internal/orderbook/hybird.go:382-396 | price and quantity of the best ask, zeros without one |
| `OrderBooks.HybridOrderBook.ValidateOrderBooks` | app/matching/internal/orderbook/hybird.go:442-457 | accepts a book exactly when its best bid is at most 1e-10 and its best ask at least -1e-10 |
| `OrderBooks.ApplyAll` | app/matching/internal/orderbook/hybird.go:51-362 | a book driven through any run of orders and cancellations holds the value of that run |
| `Admission.AdmitsAlways` | app/matching/internal/engin/engin.go:186-225 | in every interleaving an id is marked exactly while one call holds the mark or once its order is pushed, never both |
| `Admission.AtMostOnce` | app/matching/internal/engin/engin.go:186-225 | each id is pushed at most once |
| `Admission.AcceptedStaysMarked` | app/matching/internal/engin/engin.go:186-225 | an id once pushed stays marked forever |
| `Admission.DuplicateMeaning` | app/matching/internal/engin/engin.go:188-190 | a call is refused as a duplicate exactly when the id is pushed or another call holds its mark |
| `Admission.ReturnMeaning` | app/matching/internal/engin/engin.go:186-225 | in every interleaving: not-found is returned only for unknown symbols, accepted and queue-full only for known ones; exactly the accepted orders are pushed, last; a call returns something exactly when it ends |
| `Admission.PushedSymbolsAreKnown` | app/matching/internal/engin/engin.go:192-196 | every order pushed in any run has a known symbol |
| `Admission.DuplicateAlone` | app/matching/internal/engin/engin.go:188-190 | a call that runs alone on a marked id is refused and changes nothing |
| `Admission.UnknownAlone` | app/matching/internal/engin/engin.go:192-196 | on an unknown symbol it is refused and nothing of it remains |
| `Admission.AcceptedAlone` | app/matching/internal/engin/engin.go:186-225 | otherwise, with room, it is accepted: marked, with a state, pushed last, and nothing else changes |
| `Admission.QueueFullAlone` | app/matching/internal/engin/engin.go:213-218 | without room it is refused, and neither its mark nor a state under its id remains |
| `Admission.StateUnlessRobbed` | app/matching/internal/engin/engin.go:199-217 | a call about to push has its order's state exactly when no other call has deleted it since it was saved |
| `Admission.LastStepKeeps` | app/matching/internal/engin/engin.go:199-217 | a step costs a pushed order its state exactly when it deletes it, or pushes an order whose state was deleted meanwhile |
| `Admission.KeptUnlessCost` | app/matching/internal/engin/engin.go:199-217 | over whole runs: pushed orders have their states throughout exactly when no delete hits an order already pushed, or one whose call goes on to push it |
| `Admission.AloneKeepsStates` | app/matching/internal/engin/engin.go:186-225 | so they do if no id is submitted while another call on it is running |
| `Admission.RollbackCanLoseAState` | app/matching/internal/engin/engin.go:212-217 | with any two callers and any symbol, a run after which a pushed order has no state |
| `Admission.NeverLosesStatesExactly` | app/matching/internal/engin/engin.go:186-225 | no run leaves a pushed order without its state exactly when there is at most one caller or no symbol |

## Left out

- Prices are `real`, not `float64`: rounding, NaN and infinities are not modelled; the tolerance is exactly 1e-10.
- Quantities, totals and `orderCount` are mathematical integers: overflow of `int64` and `int32` is not modelled.
- In the step system of `RingSteps` the counters stay below 2^64; `RingBuffers` has what the sequential code does when they wrap.
- Slots of `forward` are a `seq` field of each node that is reassigned, not a shared Go slice.
- The draws behind the random height are an arbitrary sequence; their distribution, and hence expected running times, is not modelled.
- `SkipTrees.SkipTree.RangeFrom`: a callback's answer is any function of what it has been called on; callbacks that change the tree or its levels while it is traversed are not modelled. The methods return what they visited.
- `SkipTrees.SkipTree.RangeBetween`: as `RangeFrom`.
- `Range`, `GetAllLevels`, `GetPriceRange` and `PrintStructure`: easy copies of the modelled traversals; `GetPriceRange` is meaningful on ascending trees only.
- Mutex-protected methods are atomic; read locks are not modelled.
- The ring's spin loops: no progress or fairness is claimed beyond `RingAlone.SeekerSettles`.
- `OrderBooks.HybridOrderBook.Match`: the order book holds each per-price queue by its contents, with the ring's bound of 1024, not as a ring object; `RingBuffers.RingBuffer` proves the ring behaves so until 2^64 orders have been pushed at one price. The level manager holds its queues as objects.
- `OrderBooks.HybridOrderBook.MatchBuyOrder`: the queues as in `Match`.
- `OrderBooks.HybridOrderBook.MatchSellOrder`: the queues as in `Match`.
- `OrderBooks.HybridOrderBook.AddOrderToBook`: the push on the ring is an append that a full queue drops.
- `OrderBooks.HybridOrderBook.PopEarliest`: the ring's pop takes the front of its contents.
- `OrderQueues.OrderQueue.Push`: needs a capacity of at least 1; on a queue made with capacity 0 the source fails, and no caller makes one.
- `OrderBooks.HybridOrderBook.ExecuteTrade`: the maker is whatever the queue's front is, none when the queue is missing or empty; the generated maker id, trade ids, times and the symbol are not modelled. Each trade pops one queue entry whatever its size, and cancels leave stale entries, so no fill is attributed to a maker's quantity.
- `OrderBooks.HybridOrderBook.GetTopLevels`: stands for both sides of `GetSnapshot`; `GetDepth`, spread and statistics getters are left out.
- Orders are immutable values while the engine holds them; object pools, and the worker's return of an order that may still rest, are not modelled.
- `FillFreeRuns.RunAgreesWithManagers`: the queues are not part of the agreement, because cancels do not remove queue entries.
- In runs that mix fills and cancellations a level's orders and its total no longer correspond, since resting orders keep their original quantity and fills do not prune the list; agreement with a level manager is stated for fill-free runs only.
- `ProcessOrder`'s queue answers a push either way at any time; which answer the ring gives is the subject of `RingSteps`. The copy of the order and the returned result are not modelled.
- Workers, snapshots, persistence, metrics, the gateway, the order service and all network code.
