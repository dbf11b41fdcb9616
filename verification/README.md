# Verified model of the HYDRA limit-order-book engine

HYDRA is a low-latency exchange core: packets arrive over AF_XDP, are parsed into orders, travel through a lock-free ring
to a matching thread, and trade against a limit order book kept in fixed object pools. This project models that path in
Dafny and proves what the engine is for.

The model has two layers. The **abstract book** (`Book.dfy`, `MatchSpec.dfy`) is two lists of price levels, each a FIFO
of orders, with both sweeps, `match`, `replace` and the dispatch as functions. The **engine** (`ObjectPool.dfy`,
`OrderBook.dfy`, `Matcher.dfy`) is classes over slabs with intrusive free lists, doubly linked queues addressed by slot,
two sorted price maps and an id index; its loops unlink and free nodes while they walk them, as the source does. Every
engine method is proved to compute the function of the abstract book that stands for it, and every pointer it follows is
proved live. Theorems about the functions then hold of the engine.

| files | what they hold |
|---|---|
| Types, Book, Allocation, MatchSpec | values, abstract book, pro-rata arithmetic, the functions the engine computes |
| ObjectPool, LinkedFifo | slab with free list; intrusive list of one level |
| BookStore, BookLemmas, StoreSteps, StoreLevels, StoreOps, StoreFill | the engine's memory as one value, its invariant, and the effect of each elementary change |
| OrderBook, SweepSteps, ProRataSteps, Matcher | the engine's classes and the loop steps they need |
| Sides, Conservation, Settlement | a side as one queue; conservation of quantity; legitimacy of fills |
| PriceTime, ProRata, ProRataMatch, Liquidity, ModesAgree | what the two policies mean for a level and for a whole match, fill-or-kill, and how the policies compare |
| Upkeep, Runs, Remainder, FullBook, Amendments | invariants over all event streams, the fate of remainders, a run that loses one, cancel and replace |
| Counters, Outcomes, Determined, Histories | what every operation, event and event stream does, told without the functions that compute it, and that this leaves nothing open |
| Masks, SpscRing, SpscRuns, SpscQueue | the ring under all interleavings and as a class |
| MatchingLoop, Pipeline | the thread loops, and both threads composed over the ring |
| Frames, Classifier, OrderParser, FrameTrips | order frames, the kernel-side and the user-side reader, round trips |
| FramePool | UMEM frame conservation |
| Dataset, DatasetFile | the dataset generator and its file format |

A definition written `forall u :: Opened(u) ==> body` means `body`: `Opened` is always true, and serves to keep large
invariants folded in proofs that only pass them on.

What an event does is also described apart from these functions: `Outcomes.dfy` gives the outcome of every event by what
can be observed (who is found, how the queues stand, which fills were reported, the six counters), and
`Determined.DispatchIsDetermined` proves that exactly one outcome fits the description, the one the engine computes.

Machine integers are subset types, so a sum, difference or product stored in one carries the proof that it does not wrap.
The book's three redundant structures (queues, price maps, id index) are one invariant, `BookStore.Inv`.

Where the code and its comments differ, the model follows the code:

- `net/xdp_prog.bpf.c:33-37` says that classifier and parser agree on every packet shape. They do not: the classifier
  never looks at the IP version nibble, the IP total length, or the message fields (`FrameTrips.Compare` gives the exact
  difference, `FrameTrips.TheyDisagreeOnVersionSix` a frame).
- `include/hydra/xdp/zero_copy_parser.hpp:160-163` says the classifier accepts two VLAN tags; it is compiled for one
  (`net/xdp_prog.bpf.c:38`), and both refuse two (`FrameTrips.TwoTagsAreRefused`).
- `pop()` compares the counters without modular arithmetic. However often they wrap, the ring never delivers a wrong
  element (`SpscRuns.PoppedIsPrefix`, `SpscRuns.RunRefinesLoosely`); but once 2^64 elements were pushed it delivers none
  at all any more, so at most 2^64 - 1 are ever popped (`SpscRuns.WrappedTailHidesElements`).
- `match` ignores the result of `add_order`, so a remainder that "rests" may be dropped when a pool is exhausted;
  `Remainder.RestsExactlyWhen` says when, in terms of the book before the match, `FullBooks.RemainderIsLost` gives a run
  in which it happens, and `Amendments.ReplaceKeepsOrLoses` says when a replace loses its order that way.
- `release_frame` counts a double release only when the free stack is already full; otherwise the release breaks
  conservation (`FramePools.XdpSocket.ReleaseFrame` says exactly when, `FramePools.MissedDoubleRelease` does it).
- The queue's `static_assert` also lets N = 0 through (`Masks.StaticAssertAccepts`).

## Model

| member | source | states |
|---|---|---|
| Pools.ObjectPool.constructor | include/hydra/object_pool.hpp:52-60 | a new pool has every slot on an acyclic, correctly linked free list |
| Pools.ObjectPool.Acquire | include/hydra/object_pool.hpp:69-88 | takes the head of the free list, or counts an exhaustion exactly when every slot is live |
| Pools.ObjectPool.Release | include/hydra/object_pool.hpp:112-129 | puts a live slot back at the head; nothing else changes |
| Pools.ObjectPool.Reset | include/hydra/object_pool.hpp:164-177 | every slot is free again in initial order, from any state of the list |
| Pools.ObjectPool.Partition | include/hydra/object_pool.hpp:52-177 | in every valid pool each slot is live or on the free list, never both |
| LinkedFifo.AppendLinked | include/hydra/order_book.hpp:332-347 | appending keeps the chain linked in both directions, without duplicates |
| LinkedFifo.UnlinkLinked | include/hydra/order_book.hpp:349-381 | unlinking any node leaves the others chained in their old order |
| StoreSteps.UnlinkedInv | include/hydra/order_book.hpp:78-107 | unlink, unindex and release keep queues, counters, maps and index in agreement, but for one level that may be empty |
| StoreOps.RemovedInv | include/hydra/order_book.hpp:78-107 | with the empty level erased, all structures agree again |
| StoreSteps.AppendedInv | include/hydra/order_book.hpp:52-76 | appending and indexing a new order keeps all structures in agreement and no counter wraps |
| StoreSteps.RequantifiedInv | include/hydra/order_book.hpp:128-141 | changing an order's quantity and its level's total together keeps them in agreement |
| StoreOps.LiveCounts | include/hydra/order_book.hpp:52-107 | live orders are as many as indexed ids and abstract orders; live levels as many as prices in the two maps |
| StoreOps.FindMeans | include/hydra/order_book.hpp:115-119 | the index finds exactly the abstract order with that id |
| OrderBooks.OrderBook.FindOrder | include/hydra/order_book.hpp:115-119 | returns a live slot holding that order, or null exactly when the id does not rest |
| OrderBooks.OrderBook.BestLevel | include/hydra/order_book.hpp:173-181 | a live level whose price is better than every other price of the side, or null exactly when the side is empty |
| OrderBooks.OrderBook.NextLevel | include/hydra/order_book.hpp:183-204 | behind the price of the n-th level, the live level of the price ranked n + 1, or null exactly when there is none |
| OrderBooks.OrderBook.AppendToLevel | include/hydra/order_book.hpp:332-347 | the exact new contents of both slabs |
| OrderBooks.OrderBook.UnlinkFromLevel | include/hydra/order_book.hpp:349-381 | the exact new contents of both slabs |
| OrderBooks.OrderBook.FindOrCreateLevel | include/hydra/order_book.hpp:304-330 | the level at a price, a fresh one filed in sorted position, or null with nothing changed when the pool is empty |
| OrderBooks.OrderBook.AddOrder | include/hydra/order_book.hpp:52-76 | succeeds exactly when the id is new and both pools can serve; then the order is last in its price's queue; otherwise the memory is as before, the slot given back |
| OrderBooks.OrderBook.CancelOrder | include/hydra/order_book.hpp:78-107 | the abstract book loses exactly that id |
| OrderBooks.OrderBook.ReplaceOrderInPlace | include/hydra/order_book.hpp:128-141 | the abstract book changes in that order's quantity only |
| OrderBooks.ResetTrial | src/benchmark.cpp:1023-1028 | book, order pool and level pool reset in that order give an empty valid book from any state |
| Matchers.Matcher.FillSlot | include/hydra/matcher.hpp:217-238 | the writes of one fill; a used-up order is cancelled with quantity zero, so its level's total is lowered once |
| Matchers.Matcher.ApplyFill | include/hydra/matcher.hpp:198-238 | the fill reported and the queue after it, with the level gone exactly when it empties |
| Matchers.Matcher.TakeAtLevel | include/hydra/matcher.hpp:269-304 | the price-time loop at one level computes TakeLevel while freeing nodes under its own traversal; the saved next order stays live |
| Matchers.Matcher.MeasureLevel | include/hydra/matcher.hpp:332-372 | eligible total in uint64 without wrap, the first largest eligible order, and the counters |
| Matchers.Matcher.Floor | include/hydra/matcher.hpp:391-393 | floor(L*q/E) in uint64 without wrap, at most q |
| Matchers.Matcher.SumFloors | include/hydra/matcher.hpp:386-395 | the sum of the floors, in uint32 without wrap |
| Matchers.Matcher.PayOthers | include/hydra/matcher.hpp:414-439 | pays every order but the largest its share; the next order and the deferred largest stay live |
| Matchers.Matcher.PayLevel | include/hydra/matcher.hpp:397-444 | the deferred fill of the largest order ends the level exactly as if it had been paid in its turn |
| Matchers.Matcher.ProRataAtLevel | include/hydra/matcher.hpp:325-446 | computes ProRataLevel on the abstract queue |
| Matchers.Matcher.SweepSide | include/hydra/matcher.hpp:253-308 | both sweeps compute Sweep; the saved next level stays live although sweeping may free the current one |
| Matchers.Matcher.Available | include/hydra/matcher.hpp:310-317 | the dry runs compute DrySweep and change nothing |
| Matchers.Matcher.RestRemainder | include/hydra/matcher.hpp:98-127 | the remainder is added unless the opposite best crosses it |
| Matchers.Matcher.Match | include/hydra/matcher.hpp:49-131 | book, fills and counters are those of MatchSpec.Match; a rejected order leaves all memory unchanged |
| Matchers.Matcher.Replace | include/hydra/matcher.hpp:150-195 | book, fills and counters are those of MatchSpec.Replace; an unknown id leaves all memory unchanged |
| Allocation.ResidualBounds | include/hydra/matcher.hpp:386-396 | the residual of the floors is at least 0 and below the number of orders with something to trade |
| Allocation.SharesAreAllocation | include/hydra/matcher.hpp:397-444 | the computed shares meet the allocation policy, stated without the algorithm |
| Allocation.AllocationIsUnique | include/hydra/matcher.hpp:325-446 | only one allocation meets the policy |
| Allocation.LargestTrades | include/hydra/matcher.hpp:407-412 | whenever a level trades, a largest order trades |
| Allocation.WholeLevel | include/hydra/matcher.hpp:374-384 | a level taken whole gives everyone everything |
| ProRata.SharesAreExact | include/hydra/matcher.hpp:325-446 | the shares sum to min(remaining, eligible total); each is between its floor and the order's quantity; self-trades get 0; residual bound; the largest trades; no other allocation meets the policy |
| ProRataMatch.MatchIsProRata | include/hydra/matcher.hpp:325-446 | every accepted pro-rata match: level by level, best price first, the fills are those of an allocation by the policy of what the better levels could not give; one fill per positive share, FIFO, the first of the largest orders last |
| ProRataMatch.MakersGetTheirShares | include/hydra/matcher.hpp:386-444 | in every accepted pro-rata match each order of each level entered receives exactly its part of any allocation that meets the policy and keeps the rest; 0 where nothing is eligible and behind the levels entered |
| MatchSpec.Largest | include/hydra/matcher.hpp:346-353 | the favoured order is the first of the largest eligible ones |
| Conservation.LevelTrades | include/hydra/matcher.hpp:198-238 | at one level, in either mode: quantity leaves makers exactly as the fills report, id by id; survivors keep their order; every fill names an eligible maker |
| Conservation.TradedTotal | include/hydra/matcher.hpp:198-238 | so the queue as a whole loses exactly the sum of the fills |
| Conservation.SweepTrades | include/hydra/matcher.hpp:253-308 | the same for a whole sweep, which trades with crossing levels only |
| Settlement.MatchConserves | include/hydra/matcher.hpp:49-131 | incoming quantity = fills + remaining; the opposite side falls by the fills for every set of ids; the own side gains the remainder or nothing |
| Settlement.MatchIsPriceTime | include/hydra/matcher.hpp:49-131 | a price-time match fills the prefix allocation over all crossing orders of other clients, by price and then arrival, and overtakes nobody |
| Settlement.FillsAreLegitimate | include/hydra/matcher.hpp:198-238 | every fill is at a resting order's price, within the limit, between different orders of different clients |
| PriceTime.SweepIsOneQueue | include/hydra/matcher.hpp:253-308 | sweeping level by level is one pass over one queue |
| PriceTime.FillsAreGreedy | include/hydra/matcher.hpp:253-308 | the fills are the prefix allocation, in closed form, over all crossing orders of other clients |
| PriceTime.GreedyIsUnique | include/hydra/matcher.hpp:253-308 | the closed form determines the fills |
| PriceTime.PriorityIsKept | include/hydra/matcher.hpp:253-308 | candidates are in price order and every fill but the last takes all its maker had |
| Liquidity.DryRunPredicts | include/hydra/matcher.hpp:310-317 | in both modes the dry run leaves exactly what the sweep leaves, on any side |
| Liquidity.SweepTakesAll | include/hydra/matcher.hpp:457-478 | in both modes a sweep trades min(wanted, total of the tradeable orders) |
| Liquidity.FokAllOrNothing | include/hydra/matcher.hpp:67-85 | a fill-or-kill order fills completely if the tradeable total suffices, and otherwise changes nothing; the mode does not matter |
| ModesAgree.LevelsAgree | include/hydra/matcher.hpp:325-446 | at one level both policies leave the same total, empty the level alike, and leave the same orders if not filled |
| ModesAgree.MatchesAgree | include/hydra/matcher.hpp:49-131 | for a book of positive orders both modes agree on remaining quantity, levels entered, quantity per price left and traded, and on the whole book when the order is not filled |
| ModesAgree.ZeroQuantitySplitsTheModes | include/hydra/matcher.hpp:287-301 | with a resting order of quantity zero they differ |
| Upkeep.SweepOk | include/hydra/matcher.hpp:253-308 | a sweep keeps a side sorted, filed and free of empty levels, and adds no price |
| Upkeep.InsertOk | include/hydra/order_book.hpp:304-347 | resting an order keeps a side sorted and filed |
| Upkeep.NewOrderStandsLast | include/hydra/order_book.hpp:52-76 | a resting order goes behind every order at its price or a better one and ahead of every worse one |
| Runs.DispatchSound | src/pipeline.cpp:144-193 | one event, of any kind and in either mode, keeps the book sound |
| Runs.RunIsSound | include/hydra/matcher.hpp:98-130 | after any stream of events from empty: best bid below best ask, every resting order positive, GTC and unique, pools not exceeded |
| Runs.RunsMatchAlike | include/hydra/matcher.hpp:49-131 | in every reachable book the two modes agree on the next order, in everything that MatchesAgree names |
| Remainder.OnlyOwnOrdersBlock | include/hydra/matcher.hpp:98-114 | after a sweep that runs dry the opposite best crosses exactly when an own order crossed before, and only own orders are left at crossing prices |
| Remainder.RemainderFate | include/hydra/matcher.hpp:98-130 | the remainder of a GTC order is known beforehand and is discarded exactly when an own order is in the way |
| Remainder.RestsExactlyWhen | include/hydra/matcher.hpp:98-130 | the remainder can be found in the book exactly when no own order is in the way and, counted on the book before the match, the traded-out orders and levels leave room in both pools |
| FullBooks.RemainderIsLost | include/hydra/matcher.hpp:98-130 | after LEVEL_POOL_SIZE resting orders at different prices, one more at a new price reports its whole quantity as remaining and is not in the book |
| Remainder.StatsFitTheirCounters | include/hydra/matcher.hpp:253-308 | every counter is bounded by the pool sizes, so none wraps; eligible + self-trades = examined |
| Remainder.CountersMean | include/hydra/matcher.hpp:253-308 | levels consumed are those that cross and are reached unfilled; price-time counts an order eligible when it fills it; pro-rata examines every order of each level entered once |
| Remainder.OwnOrdersShow | include/hydra/matcher.hpp:98-130 | an accepted order that is not filled counts as self-trades exactly the own orders at crossing prices, so a remainder discarded because of one can be told from the counters |
| Counters.EveryCounterMeans | include/hydra/matcher.hpp:253-308 | all six counters of an execution, exactly: the levels entered, the orders looked at (price-time: those reached before the order is full; pro-rata: all of the levels entered), how many of these are the client's own, the others, the fills, and the quantity that the tradeable orders leave |
| Outcomes.AddMeans | include/hydra/order_book.hpp:52-76 | an added order is found, stands behind every order at its price or a better one and ahead of the rest, and nothing else moves; a known id, or a pool that cannot serve it, leaves the book as it was |
| Outcomes.CancelMeans | include/hydra/order_book.hpp:78-107 | after a cancel the id is not found, every other order stands where it stood, nothing is reported and all counters are zero; an unknown id changes nothing |
| Outcomes.MatchMeans | include/hydra/matcher.hpp:49-131 | a new order is turned away with book and fills untouched (known id, or FOK that the tradeable total cannot fill), or executed: fills by the policy in force, every opposite order less by what the fills took from it, the rest last at its price or discarded, and the counters |
| Outcomes.ReplaceMeans | include/hydra/matcher.hpp:150-195 | unknown id: nothing changes, is reported or counted; quantity 0: the order is gone; same price and no more quantity: that quantity changes in place; otherwise the order is executed anew in the book without it |
| Outcomes.DispatchMeans | src/pipeline.cpp:144-193 | what each kind of event does in every sound book, by its effect on who is found, queues, fills and counters |
| Outcomes.QueueDeterminesSide | include/hydra/order_book.hpp:304-330 | a well-formed side is determined by its queue of orders |
| Determined.DispatchIsDetermined | src/pipeline.cpp:144-193 | for every event and sound book exactly one outcome fits that description, and it is what the dispatch computes |
| Histories.RunIsTheHistory | src/pipeline.cpp:117-193 | an event stream of any length has exactly one history of such outcomes; the engine's final book and its reports, event by event, are those of that history |
| Amendments.CancelRemovesOne | include/hydra/order_book.hpp:78-107 | a cancel takes out exactly the named order and the rest closes up in order |
| Amendments.CancelUndoesAdd | include/hydra/order_book.hpp:52-107 | cancelling an order just added restores the book exactly |
| Amendments.ReplaceKeepsPriority | include/hydra/matcher.hpp:172-177 | same price and no larger quantity: every order keeps its place, only that quantity changes, nothing trades, all counters are zero |
| Amendments.ReplaceToZeroCancels | include/hydra/matcher.hpp:159-170 | a replace to zero is a cancel: the id is gone, nothing trades, all counters are zero |
| Amendments.ReplaceOfUnknown | include/hydra/matcher.hpp:153-157 | a replace of an id that does not rest leaves the book as it is, reports no fill and counts nothing |
| Amendments.ReplaceFillsAreLegitimate | include/hydra/matcher.hpp:179-194 | every fill of a replace is with another client's resting order, never with the order replaced, at that order's price and within the new limit |
| Amendments.ReplaceResubmits | include/hydra/matcher.hpp:179-194 | any other replace is a cancel and a fresh execution that is never rejected as duplicate or FOK |
| Amendments.ReplaceKeepsOrLoses | include/hydra/matcher.hpp:179-194 | if it cannot fill, what is left stays in the book under its id unless an own order is in the way, which shows as self-trades, or the level pool is full after the cancel |
| Masks.MaskIsMod | include/hydra/spsc_queue.hpp:17 | masking with 2^k - 1 is the remainder modulo 2^k |
| Masks.WrappedMask | include/hydra/spsc_queue.hpp:48-108 | the mask finds the same slot for a counter and for that counter modulo 2^64 |
| Masks.StaticAssertAccepts | include/hydra/spsc_queue.hpp:15 | in uint64, N & (N-1) = 0 exactly for powers of two and for 0 |
| SpscRing.StepInv | include/hydra/spsc_queue.hpp:48-108 | every atomic step of either thread, with loads as stale as they like and counters wrapped any number of times, keeps the ring's invariant |
| SpscRing.StepRefines | ablation/mutex_queue/include/hydra/spsc_queue.hpp:53-76 | each step is a call of the bounded FIFO or none; a failing push is right when its load was fresh, and a failing pop too before the 2^64-th push |
| SpscRing.FailureMeans | include/hydra/spsc_queue.hpp:54-75 | a push fails exactly when the queue was full as of the head it loaded |
| SpscRing.PopFailureMeans | include/hydra/spsc_queue.hpp:80-108 | a pop fails exactly when everything was popped as of the tail it loaded, or that tail is past 2^64 |
| SpscRing.NoSlotRace | include/hydra/spsc_queue.hpp:63-96 | a write about to happen and a read about to happen are at different slots |
| SpscRuns.RunInv | include/hydra/spsc_queue.hpp:48-108 | the invariant holds after every interleaving, of any length |
| SpscRuns.PoppedIsPrefix | include/hydra/spsc_queue.hpp:48-108 | after every interleaving: popped values are a prefix of pushed ones, at most N are in flight, and fewer than 2^64 were popped |
| SpscRuns.RunRefines | ablation/mutex_queue/include/hydra/spsc_queue.hpp:53-76 | with fresh loads every interleaving with fewer than 2^64 pushes is a history of the mutex queue |
| SpscRuns.RunRefinesLoosely | ablation/mutex_queue/include/hydra/spsc_queue.hpp:53-76 | with loads of any age every interleaving is a history of the mutex queue but for failing calls, which may be wrong about the contents |
| SpscRuns.WrappedTailHidesElements | include/hydra/spsc_queue.hpp:93-103 | a reachable state with 2^64 pushes in which pop says empty while an element is in flight, and from which no continuation pops anything |
| SpscRuns.StuckForever | include/hydra/spsc_queue.hpp:80-108 | once the head counter is at its largest value no interleaving pops again |
| SpscQueues.SpscQueue.Push | include/hydra/spsc_queue.hpp:48-77 | appends exactly when the queue is not full, also after the tail counter wrapped |
| SpscQueues.SpscQueue.Pop | include/hydra/spsc_queue.hpp:80-108 | removes and returns the oldest element exactly when there is one and fewer than 2^64 were pushed |
| MatchingLoops.Dispatch | src/pipeline.cpp:144-193 | the engine's book, fills and counters after an event are those of MatchSpec.Dispatch, which Determined.DispatchIsDetermined describes |
| MatchingLoops.Replay | src/pipeline.cpp:117-193 | over any events the engine's fills, counters and book are the fold of the dispatch, which Histories.RunIsTheHistory describes |
| MatchingLoops.Trial | src/benchmark.cpp:1023-1028 | after a reset, from any state and with any free lists, an event stream gives the fills and counters of a new book |
| MatchingLoops.Offer | src/pipeline.cpp:69-82 | whatever the consumer takes between attempts and whenever a stop comes, the order is accepted exactly when some attempt before the stop finds room |
| MatchingLoops.DrainQueue | src/pipeline.cpp:117-193 | draining the queue leaves the book that is the fold of the dispatch over what pop can find |
| Pipeline.MoveOk | src/pipeline.cpp:50-193 | every step of either thread keeps ring, accepted orders, log and book in agreement |
| Pipeline.PipelineIsAFold | src/pipeline.cpp:50-193 | in every interleaving, of any length, the book is the fold of the dispatch over the oldest accepted orders, in order, and is sound |
| Pipeline.DropsFollowFullQueues | src/pipeline.cpp:69-82 | in every interleaving an order is accepted or, without a stop, dropped according to whether fewer than 1000 or exactly 1000 of its own attempts loaded a head from which N elements were in flight; a drop changes neither ring nor accepted orders |
| Classifiers.ParseEthhdr | net/parsing_helpers.h:84-127 | EtherType and position behind at most one tag, in bounds |
| Classifiers.ParseIphdr | net/parsing_helpers.h:156-179 | protocol and position behind a header with options, or -1 |
| Classifiers.ParseUdphdr | net/parsing_helpers.h:229-247 | announced payload length, or -1, and where the cursor ends |
| Classifiers.Classify | net/xdp_prog.bpf.c:104-181 | which of the five verdicts a byte string gets, each exactly characterised |
| Classifiers.XdpProgram.HydraXdpRedirect | net/xdp_prog.bpf.c:104-181 | redirects exactly order traffic with a bound socket; each of the five counters moves for exactly the frames it counts |
| OrderParsers.ParseHeaders | include/hydra/xdp/zero_copy_parser.hpp:144-239 | accepts the headers exactly when the frame is order traffic, IPv4, and its total length covers the message within the frame |
| OrderParsers.Parse | include/hydra/xdp/zero_copy_parser.hpp:144-268 | yields the message exactly for order frames, on all byte strings, reading in bounds |
| OrderParsers.ParseOrderZeroCopy | include/hydra/xdp/zero_copy_parser.hpp:144-268 | on success each of six fields is the message's and three keep their value; on failure nothing is written |
| FrameTrips.Compare | net/xdp_prog.bpf.c:33-53 | the parser accepts exactly the redirected frames that pass its own further checks |
| FrameTrips.VersionIsNotClassified | net/xdp_prog.bpf.c:104-181 | changing the version nibble never changes the classification, and makes the parser refuse |
| FrameTrips.TheyDisagreeOnVersionSix | net/xdp_prog.bpf.c:33-37 | a frame that is redirected and refused |
| FrameTrips.MessageRoundTrip | tools/send_test_orders.cpp:289-296 | an encoded message reads back field by field, behind any prefix |
| FrameTrips.RoundTrip | tests/test_phase10_xdp.cpp:68-143 | untagged or with one tag, every message with positive quantity is accepted and reads back unchanged, prices as signed 64-bit |
| FrameTrips.ReceiveSent | include/hydra/xdp/zero_copy_parser.hpp:144-268 | with a sent frame in memory the parser's six fields are those of the message sent, and the other three are kept |
| FrameTrips.MessageBytes | include/hydra/xdp/zero_copy_parser.hpp:53-62 | which of the 30 bytes holds which byte of which field, the most significant first |
| FrameTrips.TrafficIs | net/xdp_prog.bpf.c:104-181 | byte by byte, which frames are order traffic and which of these are orders |
| FrameTrips.TwoTagsAreRefused | tests/test_phase10_xdp.cpp:112-143 | two or more tags are refused by both readers |
| FrameTrips.ZeroQtyIsRefused | include/hydra/xdp/zero_copy_parser.hpp:245-257 | a zero quantity is redirected but never parsed |
| FramePools.XdpSocket.constructor | net/xdp_socket_user.cpp:122-130 | every frame is seeded once |
| FramePools.XdpSocket.RefillFillRing | net/xdp_socket_user.cpp:204-228 | frames move from stack to fill ring until one is exhausted or full; none is lost |
| FramePools.XdpSocket.RecvBatch | net/xdp_socket_user.cpp:149-171 | the oldest received frames go to the caller, as many as asked for, received, and fit a batch |
| FramePools.XdpSocket.KernelTakes | net/xdp_socket_user.cpp:204-228 | the kernel may only take the oldest frame of the fill ring; no frame is lost |
| FramePools.XdpSocket.KernelDelivers | net/xdp_socket_user.cpp:149-171 | the kernel may only deliver a frame it took; no frame is lost |
| FramePools.XdpSocket.EachFrameIsInOnePlace | net/xdp_socket_user.cpp:122-228 | under conservation every frame address is in exactly one of the five places, once, and nothing else is in any |
| FramePools.XdpSocket.ReleaseFrame | net/xdp_socket_user.cpp:179-197 | a held frame returns to the stack and is never counted as a double release; conservation survives exactly if the caller held the frame or every frame was on the stack |
| FramePools.MissedDoubleRelease | net/xdp_socket_user.cpp:179-197 | receive, release, release again: nothing is counted and the frame is on the stack twice |
| FramePools.ParseAndRelease | include/hydra/xdp/zero_copy_parser.hpp:276-284 | the frame is released whatever the parser says, and the order's fields are as the parser leaves them |
| Datasets.DatasetGenerator.RemoveResting | include/hydra/dataset_generator.hpp:406-414 | swap-remove drops exactly that id and keeps the list duplicate-free |
| Datasets.DatasetGenerator.Generate | include/hydra/dataset_generator.hpp:151-247 | for any draws the events form a dataset, and event i is what draw i says: its kind, price mid + offset, quantity, side, time in force, client and arrival |
| Datasets.ArrivalsRise | include/hydra/dataset_generator.hpp:162-167 | arrivals are the sums of the gaps drawn and never fall, while these stay below 2^64 |
| Datasets.IdsIncrease | include/hydra/dataset_generator.hpp:212-217 | ids of new orders are distinct and increasing |
| Datasets.TargetsAreLive | include/hydra/dataset_generator.hpp:173-207 | every cancel and replace names an earlier GTC order not cancelled before |
| DatasetFiles.WriteToFile | include/hydra/dataset_generator.hpp:249-281 | the bytes written are header and records, field by field |
| DatasetFiles.ReadFromFile | include/hydra/dataset_generator.hpp:283-379 | which byte strings are accepted, and as what each other one is refused, exactly |
| DatasetFiles.RecordRoundTrip | include/hydra/dataset_generator.hpp:96-104 | every bit of a record's order comes back; the reader refuses exactly new orders without a valid side and time in force |
| DatasetFiles.RecordBytes | include/hydra/dataset_generator.hpp:96-104 | which byte of a record holds which byte of which field, the least significant first |
| DatasetFiles.FileBytes | include/hydra/dataset_generator.hpp:249-281 | the bytes of the header, and where each record lies in the file |
| DatasetFiles.FileRoundTrip | include/hydra/dataset_generator.hpp:249-379 | a written file is accepted exactly when its new orders are valid, and reads back as the same events, whatever follows the last record |
| DatasetFiles.GeneratedListsSurvive | include/hydra/dataset_generator.hpp:151-379 | a generated list is always accepted and comes back event by event |

## Left out

- Clocks, affinity, latency samples, statistics, benchmark reports, socket setup and BPF loading: I/O and timing.
- PMR arenas, hash tables and cache-line layout: the maps are sequences of bindings in key order and Dafny maps.
- Hardware memory ordering: the ring is modelled by atomic steps in one order, with loads of the other side's counter as
  stale as coherence allows.
- The AF_XDP receive loop of `src/pipeline.cpp:300-360`: it composes receiving, parsing and the bounded push loop, each of
  which is modelled; `Pipeline` takes the orders it produces as arbitrary.
- The other ablations: the same logic without the pools or the flat layout.
- Dataset files: opening, sizing and failing writes of the stream, and hosts that are not little-endian.
- MatchingLoops.Offer: the consumer acts between attempts and not within one; Pipeline has every interleaving.
- MatchingLoops.DrainQueue: one thread at a time and up to the first empty pop; Pipeline has both threads, retries and stops.
- Random distributions and arrival arithmetic in doubles: draws and gaps are arbitrary inputs.
- Datasets.DatasetGenerator.Generate: asks that mid price plus or minus spread fit int64 and that fewer than 2^64 orders are
  drawn, which the source does not check.
- MatchSpec counters: the functions count in unbounded numbers; Remainder.StatsFitTheirCounters shows that uint32 suffices.
- OrderBooks.OrderBook.ReplaceOrderInPlace: asks for a quantity that does not grow, as its one caller guarantees.
- Pools.ObjectPool.Release: asks for a live slot, which is what the source's assertions check in part.
- The destruction of pooled objects and the exhaustion counter's width: the objects are trivially destructible, and the
  counter is only reported.
