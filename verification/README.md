# Trading ecosystem: verified model

A Dafny model of the exchange side of the trading system, with proofs.  `dafny verify dfyconfig.toml`
checks it.

## What is modelled

**The limit order book** (`me_order_book.h`, `me_order_book.cpp`).  `BookSpec` says what the book
computes: each side is the sequence of its resting orders in trading order, and `Process` and `Run`
turn requests into the next book and the two message streams.  `OrderBook.MEOrderBook` is the real
structure: circular doubly linked levels, a circular FIFO of orders in every level, the price table, the
client table and the two pools, changed in place.  A pointer is the index of a pool block, and a null
pointer is -1.  `Valid()` says that all these structures describe one well-formed book, `Abstract()` is
that book, and every operation is proved to do to `Abstract()` and to the message streams what the
specification says.  `Messages` says what those messages carry, field by field, from the request and the
book before it.  `BookInvariant`, `PriceTime`, `FeedReplay`, `FeedWatch`, `LifeCycle`, `Conservation`,
`RoundTrip`, `Capacity` and `Tickers` prove what the specification promises over requests and runs;
`Rings`, `Ladder`, `LevelList`, `Representation` and `BookValues` are the layers between blocks and
values.

**The pool** (`MemPool`), **the ring queue** as one thread uses it (`LFQueue`) and as a protocol of
interleaved loads and stores (`Spsc`), **the sequencer** (`Sequencer`), **the order server** (`Framing`,
`Ingest`, `Streams`, `OrderServer`) and **the matching engine** (`Tickers`, `Engine`).  `Delivery` joins
the two ends: from accepted requests to the sockets of the clients that the responses name.

## The committed text and its intent

A book has a constant `amended`.  False is the committed text, true its evident intent.  They differ in
five places of `me_order_book.h`:

- lines 68, 109, 120 and 127: `side == BUY ? bids : asks = x` is parsed as
  `side == BUY ? bids : (asks = x)`, so the head of the bids is never assigned;
- lines 94-96: a level appended behind all others never gets its next pointer.

Contracts cover both texts.  Where the committed text fails, they say exactly when, as an
if-and-only-if: `TextInserts`, `TextRemoves`, `TextRests` and `TextAdds` are conditions on the side,
the place and the price, and `TextAddsInAdvance` tells the last one from the book before the call.
`FirstBidIsLost` and `WorseAskIsUnlinked` show both losses on the structure, for any such orders.

One more departure from intent is kept literally, because both texts have it: `checkForMatch` receives
the 64-bit market order id through a 32-bit parameter, so the fills of an incoming order carry the id
modulo 2^32.  `HeardExactlyWhenItFits` says exactly when that matters.

## What the model relies on

The source demands these of its callers without checking them: the side of a new order is BUY or SELL;
when something of it rests, its client is below 256, its client order id below 2^20, and its client has no
order of that id left (`Legal`); the order id of a cancel is below 2^20 when its client is below 256; the
ticker is below 8; clients in incoming frames are below 256.  `AddIsSafeExactlyWhen` shows that `Legal` asks
no more of a new order than the book needs, as a condition on the book before the call.  That responses go
only to clients with a socket is a precondition of `SendResponses`; `ResponsesAreDeliverable` proves it of
everything the engine answers to accepted requests.

An order that rests needs room (`RoomToRest`): two free blocks in each pool it takes from, and no live price
that shares the table slot of its own.  `WindowRunsHaveRoom` reduces this to the order pool while prices lie
in one window, and `CollisionFitsNoStructure` shows that the slot condition cannot be weakened.  The queue's
producer pushes only while at most capacity - 2 elements are unread.

Integers are unbounded except for that 32-bit parameter: ids, priorities and sequence numbers are
assumed not to reach 2^64.

ASSERT and FATAL end the process.  Where the source can be driven into one, the method returns `ok`
and says when it is false (`Allocate`, `AddClientRequest`, `RecvCallback`, `ProcessClientRequest`); the
others are preconditions, proved at every call.

## Model

| member | source | states |
|---|---|---|
| OrderBook.MEOrderBook.Add | src/exchange/matcher/me_order_book.cpp:125-166 | On the linked structure, a legal new order with room has exactly the book and both message streams of the functional specification; the links, tables and pools are sound again if and only if the text is amended or no write of the committed text was lost |
| OrderBook.MEOrderBook.Cancel | src/exchange/matcher/me_order_book.cpp:167-213 | A cancel removes exactly the order the client table names, or is rejected, with the specification's messages, and always leaves a valid structure, in both texts |
| OrderBook.MEOrderBook.CheckForMatch | src/exchange/matcher/me_order_book.cpp:101-123 | The matching loop over the linked structure terminates and equals the specification's sweep: leaves, rest of the opposite side, fills in order |
| OrderBook.MEOrderBook.Match | src/exchange/matcher/me_order_book.cpp:29-99 | One trade with the front order of the opposite side: both quantities fall by the minimum, the four messages are sent, a filled order leaves every structure, a partly filled one keeps its place |
| OrderBook.Outgoing.ReportFill | src/exchange/matcher/me_order_book.cpp:37-98 | Two responses, a trade, then a removal carrying the quantity before the fill, or the new quantity, with every field spelled out: both parties and the feed hear the resting order's price |
| OrderBook.MEOrderBook.AddOrdersAtPrice | src/exchange/matcher/me_order_book.h:63-113 | The new level is linked at its sorted place, and the result is the sorted circle headed by the best level if and only if the text is amended or the place avoids the two lost writes; the next pointer stays null exactly when the committed text appends behind others |
| OrderBook.MEOrderBook.FindTarget | src/exchange/matcher/me_order_book.h:72-88 | The walk terminates at the first level that the new price beats, or back at the best level exactly when the price is worse than every level's |
| OrderBook.MEOrderBook.LinkBehind | src/exchange/matcher/me_order_book.h:89-97 | "Add after" makes a circle with the new level last if and only if the text is amended |
| OrderBook.MEOrderBook.LinkInFront | src/exchange/matcher/me_order_book.h:98-111 | "Add before" makes the circle in both texts and moves the head exactly when the new price is best and the head's assignment takes effect |
| OrderBook.MEOrderBook.RemoveOrdersAtPrice | src/exchange/matcher/me_order_book.h:115-134 | The level's block is freed and its table slot cleared; the rest is the sorted circle headed by the best level if and only if the text is amended or no bid head had to move |
| OrderBook.MEOrderBook.AssignHead | src/exchange/matcher/me_order_book.h:68 | The assignment reaches the bids only in the amended text |
| OrderBook.MEOrderBook.AddOrder | src/exchange/matcher/me_order_book.h:149-170 | The order lands at its price-time place of its own side, in a level that is found or opened, and in the client table; the structure stays sound exactly when the committed text loses no write |
| OrderBook.MEOrderBook.RemoveOrder | src/exchange/matcher/me_order_book.h:172-192 | The order leaves its queue, and its level when it was alone there; its client entry is cleared, its block freed, and all other orders of both sides are unchanged |
| OrderBook.MEOrderBook.GetNextPriority | src/exchange/matcher/me_order_book.h:137-144 | Reading the level's last order through the table gives the specification's next priority, also when there is no level |
| OrderBook.MEOrderBook.SlotIsOwn | src/exchange/matcher/me_order_book.h:149-170 | With room, what the shared price table holds at the order's price is nothing or the level of that price on the order's own side |
| OrderBook.MEOrderBook.LevelHasPrice | src/exchange/matcher/me_order_book.h:54-61 | Every linked level has a resting order of its price |
| OrderBook.MEOrderBook.PriceLeadsToLevel | src/exchange/matcher/me_order_book.h:58-61 | The table leads from every resting order's price to the level of that price |
| OrderBook.MEOrderBook.SoundKeepsSlotsApart | src/exchange/matcher/me_order_book.h:54-61 | A sound structure never holds two prices of one table slot |
| OrderBook.MEOrderBook.CollisionFitsNoStructure | src/exchange/matcher/me_order_book.h:149-170 | When an order would rest at a price whose slot holds another price, no links and no table at all describe the specified book; with Add, which leaves some when the slot is free, this makes the slot condition exact |
| OrderBook.MEOrderBook.RoomInTables | src/exchange/matcher/me_order_book.h:153-159 | Room counted in orders and prices is room in the level pool and in the price table, so the allocation of a level cannot fail |
| OrderBook.MEOrderBook.AllocateOrder | src/exchange/matcher/me_order_book.cpp:141-152 | With room the order pool's allocation succeeds and changes nothing that is linked |
| OrderBook.MEOrderBook.FindOrder | src/exchange/matcher/me_order_book.cpp:168-174 | Null exactly when the client table has no entry, which covers client ids out of range |
| OrderBook.MEOrderBook.ClientStands | src/exchange/matcher/me_order_book.cpp:171-174 | The client table leads to the one order of that client and id, at its place in trading order |
| OrderBook.MEOrderBook.HeadLeadsToFront | src/exchange/matcher/me_order_book.cpp:105-119 | The side's head is null exactly when the side is empty, and its first order is the one that trades first |
| OrderBook.MEOrderBook.constructor | src/exchange/matcher/me_order_book.cpp:5-14 | A new book is valid and empty, with ids starting at 1 |
| OrderBook.MEOrderBook.NoBidHead | src/exchange/matcher/me_order_book.h:68 | A sound structure whose bid head is null holds no bid; the committed text never assigns that head |
| OrderBook.FirstBidIsLost | src/exchange/matcher/me_order_book.h:68 | In the committed text, any bid that is the first to rest is published and counted, while the bid head stays null and the links and tables are not those of the book's orders |
| OrderBook.WorseAskIsUnlinked | src/exchange/matcher/me_order_book.h:94-96 | In the committed text, after any two asks less than 256 apart, the worse one second, the links and tables are not those of the book's orders |
| BookValues.PlaceInRow | src/exchange/matcher/me_order_book.h:161-168 | Behind the last order of an existing level is where price-time priority puts the order |
| BookValues.PlaceInNewRow | src/exchange/matcher/me_order_book.h:150-160 | A level opened at its rank puts its order where price-time priority does, with priority 1 |
| BookValues.LevelsArePrices | src/exchange/matcher/me_order_book.h:38-41 | A side has as many levels as its orders have prices |
| BookValues.LiveCount | src/low-latency-components/mem_pool.h:52-58 | A pool has as many live blocks as the structures link or hold in hand |
| Rings.SplicedRing | src/exchange/matcher/me_order_book.h:98-103 | The four link writes turn a circle into the circle with the new node at any chosen place |
| Rings.SplicedGap | src/exchange/matcher/me_order_book.h:94-96 | Without the new node's next pointer there is no circle, wherever it was linked |
| Rings.UnlinkedRing | src/exchange/matcher/me_order_book.h:123-124 | The two link writes turn a circle into the circle without the node |
| Rings.RingNeighbours | src/exchange/matcher/me_order_book.h:94-103 | In a circle prev and next are inverse and stay inside it |
| BookInvariant.RunKeepsWellFormed | src/exchange/matcher/me_order_book.cpp:101-213 | Over every legal run: sides strictly in price-time order with increasing priorities and ids, positive quantities, best bid below best ask, no client order id twice |
| BookInvariant.MatchKeepsWellFormed | src/exchange/matcher/me_order_book.cpp:101-123 | Matching trims the front of the opposite side only, and when something is left nothing on that side crosses any more |
| BookInvariant.MatchedLeavesPlace | src/exchange/matcher/me_order_book.h:149-170 | After matching, no level of the opposite side has the remainder's price, so the shared price table is safe |
| PriceTime.AddIsSafeExactlyWhen | src/exchange/matcher/me_order_book.h:169 | A new order keeps the book well formed if and only if the crossing quantity covers it, or its client and id index the table and its client has no order of that id except at a crossing price of the opposite side |
| PriceTime.LegalInAdvance | src/exchange/matcher/me_order_book.cpp:139-153 | What the book relies on for a new order, told from the book before the call, both ways |
| PriceTime.TextAddsInAdvance | src/exchange/matcher/me_order_book.h:63-113 | Nothing rests if and only if the crossing quantity covers the order, so the committed text's condition is told from the book before the call |
| PriceTime.LeavesExceedCrossing | src/exchange/matcher/me_order_book.cpp:101-123 | What the loop leaves is the incoming quantity less the quantity at crossing prices, or nothing |
| PriceTime.TradesInAdvance | src/exchange/matcher/me_order_book.cpp:105-119 | Something trades if and only if the loop's guard holds at its first turn; otherwise nothing changes |
| BookInvariant.LegalExactlyWhenSafe | src/exchange/matcher/me_order_book.h:169 | The new orders excluded as not legal are exactly those that spoil the book |
| BookInvariant.PlaceInserts | src/exchange/matcher/me_order_book.h:149-170 | Placing inserts at one position: nothing in front is strictly worse than the new order, and the order behind is |
| BookInvariant.NextPriorityIsFresh | src/exchange/matcher/me_order_book.h:138-144 | The new priority is above every priority at its price |
| PriceTime.SweepIsPriceTime | src/exchange/matcher/me_order_book.cpp:29-123 | The loop equals closed formulas over the side as it stood: an order trades exactly when its price is within the limit and the orders in front leave something; those orders are a prefix; every field of the four messages of each fill, the leaves and the rest of the side follow from the order and the quantities in front of it |
| PriceTime.OnlyLastIsPartial | src/exchange/matcher/me_order_book.cpp:32-35 | Every order that trades is filled in full, except possibly the last |
| Messages.AddReports | src/exchange/matcher/me_order_book.cpp:125-166 | All messages of a new order, field by field, from the request and the book before it: the acceptance, four per trading order, and the announcement of the remainder exactly when the crossing quantity does not cover the order; the order that then rests is the announced one |
| Messages.CancelReports | src/exchange/matcher/me_order_book.cpp:188-212 | The cancel of a resting order confirms that order's id, side, price and quantity to the client and removes it from the feed with its own side, price and priority, whatever the request says of them; the book loses exactly that order |
| Messages.RejectReports | src/exchange/matcher/me_order_book.cpp:175-187 | Without such an order the one response is a rejection with id, side, price and quantities invalid, and nothing else happens |
| FeedReplay.RunReplays | src/exchange/matcher/me_order_book.cpp:63-98 | For every legal run, folding all published updates over nothing gives exactly the resting orders with side, price, quantity and priority |
| FeedReplay.ProcessReplays | src/exchange/matcher/me_order_book.cpp:155-164 | The same for one request from any well-formed book |
| FeedReplay.QuotesFixOrder | src/exchange/matcher/me_order_book.cpp:155-164 | The published price and priority of the orders determine their queue order |
| FeedReplay.SameFeedSameSide | src/exchange/matcher/me_order_book.cpp:200-210 | Two books with the same replayed feed have the same public orders in the same order on each side |
| FeedWatch.RunIsSeen | src/exchange/matcher/me_order_book.cpp:63-98 | Over every legal run a subscriber that checks each update sees nothing wrong: an addition is new and last at its price; a trade is followed by the quote in front of the other side, at the trade's price, removed with its quantity or reduced by what traded; any other removal has the quote's side, price and priority and quantity 0; what the subscriber knows in the end is the book |
| FeedWatch.ProcessIsSeen | src/exchange/matcher/me_order_book.cpp:200-210 | The same for one request from any well-formed book |
| LifeCycle.RunIsHeard | src/exchange/matcher/me_order_book.cpp:37-61 | Over every run in which no order with an id from 2^32 on trades on arrival: per market order id the responses are one acceptance, fills that count the leaves down within the limit, then at most one cancel of what is left, nothing after that, and the last leaves are the resting quantity |
| LifeCycle.HeardExactlyWhenItFits | src/exchange/matcher/me_order_book.cpp:101 | For every legal request: its responses keep the listener's picture equal to the book if and only if the loop's guard is false at its first turn or its id is below 2^32 |
| LifeCycle.FewRequestsFit | src/exchange/matcher/me_order_book.h:49-51 | Runs of fewer than 2^32 requests never reach such an id |
| LifeCycle.WideIdIsMisnamed | src/exchange/matcher/me_order_book.cpp:101 | A concrete order whose own fill carries another order's id |
| Conservation.AddConserves | src/exchange/matcher/me_order_book.cpp:125-166 | Incoming quantity = traded + rested; the opposite side falls by exactly the traded total and the own side grows by the rested one |
| Conservation.SweepConserves | src/exchange/matcher/me_order_book.cpp:29-36 | What the incoming order loses, the opposite side loses, and both are what the trades say |
| Conservation.RunBalances | src/exchange/matcher/me_order_book.cpp:188-209 | Over every run: accepted = resting + cancelled + 2 x traded, and both sides' executions together are 2 x traded |
| Conservation.RunHasOneValue | src/exchange/matcher/me_order_book.cpp:37-72 | Over every run, price times quantity summed over the buyers' fills, over the sellers' fills and over the published trades is the same |
| RoundTrip.AddThenCancel | src/exchange/matcher/me_order_book.cpp:125-213 | A new order that matches nothing, then its cancel, restores both sides and cancels the full quantity |
| RoundTrip.CancelAcceptedIffLive | src/exchange/matcher/me_order_book.cpp:167-213 | A cancel is accepted if and only if that client's order is live, after which it is live no more; a rejected cancel changes nothing and publishes nothing |
| Capacity.WindowRunsHaveRoom | src/exchange/matcher/me_order_book.h:54-61 | From any well-formed book and over legal runs of any length whose prices lie in 255 consecutive ones: every request has room if and only if the order pool has it, so slots never collide and the level pool never runs out |
| Capacity.ShortRunsFit | src/low-latency-components/mem_pool.h:60-76 | A run shorter than what the order pool has left cannot exhaust it |
| Capacity.ApartExactlyWhenFree | src/exchange/matcher/me_order_book.h:54-61 | Resting keeps all prices in different slots if and only if the slot of the new price holds no other price |
| Capacity.WindowHasRoom | src/low-latency-components/mem_pool.h:60-76 | In such a window at most 254 levels exist when one more is opened, so the pool keeps its spare block |
| Capacity.SlotsAreDistinct | src/exchange/matcher/me_order_book.h:54-56 | In such a window the table slot determines the price |
| Capacity.SlotsCollideExactlyWhen | src/exchange/matcher/me_order_book.h:54-56 | The slots are 0 to 255, two prices share one if and only if they are a multiple of 256 apart, and for negative prices the slot is the remainder of the unsigned 64-bit value |
| MemPools.MemPool.Allocate | src/low-latency-components/mem_pool.h:23-34 | The block handed out was free, only it changes, and the call succeeds if and only if two blocks were free; then the next index is the first free block around the circle |
| MemPools.MemPool.UpdateNextFreeIndex | src/low-latency-components/mem_pool.h:60-76 | The circular search terminates at the first free block after the start, or comes back exactly when none is free |
| MemPools.MemPool.Deallocate | src/low-latency-components/mem_pool.h:35-43 | Frees exactly that live block and keeps the next index on a free one |
| MemPools.MemPool.AtMostAllButOneLive | src/low-latency-components/mem_pool.h:52-58 | At most N - 1 blocks are ever live |
| LFQueues.LFQueue.UpdateWriteIndex | src/low-latency-components/lock_free_queue.h:21-25 | Appends the written slot while at most capacity - 2 are unread; the write that fills the last slot loses every unread element, if and only if there was no room |
| LFQueues.LFQueue.GetNextToRead | src/low-latency-components/lock_free_queue.h:26-29 | Null exactly when nothing is unread, otherwise the oldest element |
| LFQueues.LFQueue.UpdateReadIndex | src/low-latency-components/lock_free_queue.h:30-35 | Removes the oldest element and keeps the count |
| LFQueues.LFQueue.Push | src/low-latency-components/lock_free_queue.h:17-25 | The three producer calls append one element |
| Spsc.DeliversInOrder | src/low-latency-components/lock_free_queue.h:17-35 | Under every interleaving of single loads and stores, for any capacity: the values read are a prefix, in order, of the values the producer was given to push, the others are unread or under way, and the producer never fills the slot the consumer reads |
| Spsc.StepKeepsInv | src/low-latency-components/lock_free_queue.h:17-35 | Every step of either thread keeps the protocol's invariant, which ties the slot being published to the pushed value |
| Spsc.ConsumerTakesOne | src/low-latency-components/lock_free_queue.h:26-35 | A waiting consumer that finds an element reads and releases exactly the oldest one by its own turns, with and without the test of size() |
| Spsc.EverythingIsConsumed | src/low-latency-components/lock_free_queue.h:26-35 | While the producer rests, the consumer's own turns empty the queue: everything ever pushed is consumed |
| Spsc.ProducerPushes | src/low-latency-components/lock_free_queue.h:17-25 | A producer with room gets its value behind the unread ones by its own turns, wherever the consumer stands |
| Spsc.CountFollowsIndices | src/low-latency-components/lock_free_queue.h:21-35 | At every step the count is the unread number by the indices, less one between the producer's index store and its increment, plus one between the consumer's index store and its decrement |
| Spsc.TestingConsumerNeverFails | src/exchange/order_server/order_server.h:29 | A consumer that tests the size after fetching never fails the ASSERT, in any interleaving |
| Spsc.FailsExactlyWhen | src/low-latency-components/lock_free_queue.h:33 | A consumer that does not test fails it if and only if it has released the last element while the producer has not counted it yet |
| Spsc.UntestedConsumerCanFail | src/exchange/matcher/matching_engine.h:78-87 | For every capacity from 2 on there is an interleaving in which the engine's loop, which does not test, fails it |
| Sequencer.FIFOSequencer.AddClientRequest | src/exchange/order_server/fifo_sequencer.h:21-26 | Appends the request with its receive time, and refuses exactly when 1024 are pending |
| Sequencer.FIFOSequencer.SequenceAndPublish | src/exchange/order_server/fifo_sequencer.h:28-51 | Appends to the queue, request by request from the front, a permutation of the pending requests in non-decreasing receive time, behind everything queued, and empties the pending set |
| Sequencer.OrderIsDetermined | src/exchange/order_server/fifo_sequencer.h:58-65 | The publication order of a batch is determined if and only if pending requests of equal receive time are equal |
| Sequencer.ClientOrderIsKept | src/exchange/order_server/fifo_sequencer.h:36 | For every client: whatever the sort does, its requests are published in the order in which they were accepted, if and only if that is the order of their receive times and equal times belong to equal requests |
| Sequencer.OneReadCanBeReversed | src/exchange/order_server/order_server.h:90 | Any two different requests of one client accepted in one read, which gives them one receive time, can be published the other way round |
| Sequencer.EarlierFirst | src/exchange/order_server/fifo_sequencer.h:36 | Whatever the sort does with ties, an earlier request is published before a later one |
| Sequencer.EarlierBatchFirst | src/exchange/order_server/fifo_sequencer.h:36 | When everything in one batch was received before everything in another, any permitted order is a permitted order of the first followed by one of the second |
| Framing.RequestsAreBlocks | src/exchange/order_server/order_server.h:56-58 | The i-th request is the i-th 38-byte block of the stream |
| Framing.RequestsCount | src/exchange/order_server/order_server.h:57 | There are as many requests as whole blocks, and what remains is shorter than one |
| Framing.DecodeEncode | src/exchange/order_server/client_request.h:34-74 | Reading a frame gives back every message that fits the field widths, laid out in the order of the packed declarations |
| Framing.EncodeDecode | src/exchange/order_server/client_request.h:34-74 | A frame with known type and side codes is the layout of the message read from it |
| Framing.UnknownTypeIsInvalid | src/exchange/order_server/client_request.h:16-20 | A request is invalid exactly when its type byte is neither the code of a new order nor of a cancel |
| Framing.ChunkingDoesNotMatter | src/exchange/order_server/order_server.h:55-94 | However a stream is cut into reads, the requests of all callbacks are the blocks of the whole stream |
| Ingest.ServedInSequence | src/exchange/order_server/order_server.h:64-90 | Over every run of arrivals on any sockets, the requests accepted for a client carry exactly 1, 2, ..., k in order, all from the socket that first used the client id, to which it stays bound |
| Ingest.AcceptedArrived | src/exchange/order_server/order_server.h:57-91 | What is accepted is a subsequence of what arrived |
| Ingest.BindingsStay | src/exchange/order_server/order_server.h:64-66 | A client stays bound to its first socket |
| Ingest.NumberConcat | src/exchange/order_server/order_server.h:29-44 | Numbering goes on where it stopped, however the responses are cut into drains |
| Ingest.NumbersFollow | src/exchange/order_server/order_server.h:29-44 | In queue order each client's outgoing responses are numbered consecutively from its counter |
| Ingest.NumberKeepsQueue | src/exchange/order_server/order_server.h:29-44 | Every response is sent once, in queue order |
| Delivery.DrainsAreOne | src/exchange/order_server/order_server.h:25-45 | However the queue is drained over a run, while clients are being bound, each socket gets what one drain of everything would write |
| Delivery.NumberedFromOne | src/exchange/order_server/order_server.h:29-44 | Over all drains of a run each client's responses are numbered 1, 2, 3, ... in queue order |
| Delivery.ClientHears | src/exchange/order_server/order_server.h:29-44 | What a client reads on its socket is all its responses and no other client's, in queue order, each behind its number; on other sockets it finds nothing |
| Delivery.ResponsesAreDeliverable | src/exchange/order_server/order_server.h:38 | Whatever arrived on whatever sockets, and in whatever order accepted requests reach the engine, every response names a client with a socket, so the ASSERT never fires |
| Streams.SocketsDoNotMix | src/exchange/order_server/order_server.h:48-96 | Reads of different sockets may be interleaved and cut in any way: the messages of a socket are the blocks of its own byte stream |
| Streams.OneStreamDecides | src/exchange/order_server/order_server.h:48-96 | End to end, for any interleaving: what is accepted for a client is picked, by consecutive sequence numbers, from the bytes of the one socket the client is bound to |
| OrderServers.OrderServer.RecvCallback | src/exchange/order_server/order_server.h:48-96 | On the buffer and the arrays, a read serves the whole frames in order, leaves exactly the residue in front, and adds to the pending requests exactly the accepted ones, in order, each with the time of the read; not ok if and only if more are accepted than can be pending |
| OrderServers.OrderServer.ServeFrames | src/exchange/order_server/order_server.h:56-91 | The frame loop equals the specification's gate over the decoded blocks and stops where the residue begins |
| OrderServers.OrderServer.ServeOne | src/exchange/order_server/order_server.h:64-90 | One request: binding, socket test, sequence test and counter, as the gate says; if accepted it becomes pending with the time of the read |
| OrderServers.TCPSocket.Compact | src/exchange/order_server/order_server.h:93-94 | The byte copy to the front gives the residue; its demand that source and destination do not overlap is proved at the call |
| OrderServers.TCPSocket.Receive | src/low-latency-components/tcp_socket.h:40-61 | A read appends its bytes behind the valid ones |
| OrderServers.OrderServer.ReadSocket | src/low-latency-components/tcp_socket.h:57-98 | A read and its callback together serve the residue joined with the new bytes |
| OrderServers.OrderServer.ReadAll | src/low-latency-components/tcp_server.h:44-48 | Reading different sockets one after the other serves each one's residue joined with its new bytes and leaves each its own residue |
| OrderServers.OrderServer.ServeRound | src/low-latency-components/tcp_server.h:40-51 | A round of reads ends with the accepted requests of all of them in the engine's queue, in an order the sort permits, and none pending |
| OrderServers.RoundIsOneRun | src/exchange/order_server/order_server.h:48-96 | A round is one run of the gate over all its arrivals, and what becomes pending are the accepted requests in the order of their arrival |
| OrderServers.EarlierReadsFirst | src/exchange/order_server/order_server.h:90 | End to end through a round: whatever the sort does with ties, requests accepted in reads before a time are published before all requests accepted in reads from that time on |
| OrderServers.OrderServer.SendResponses | src/exchange/order_server/order_server.h:29-44 | Draining the queue writes to every socket exactly the numbers and responses of the clients bound to it, in queue order, and advances the counters |
| OrderServers.OwnSocketGetsAll | src/exchange/order_server/order_server.h:40-41 | All responses of a client, and none of them elsewhere, go to the socket it is bound to |
| OrderServers.OrderServer.RecvFinishedCallback | src/exchange/order_server/order_server.h:98-100 | A round's pending requests reach the engine's queue, request by request, in receive-time order |
| OrderServers.OrderServer.constructor | src/exchange/order_server/order_server.cpp:14-16 | All counters start at 1 and no client is bound |
| Tickers.TickerIsolation | src/exchange/matcher/matching_engine.h:27-72 | For any interleaving of requests over the tickers, each book and its part of both streams are those of running that ticker's requests alone |
| Tickers.ServableByTicker | src/exchange/matcher/matching_engine.h:27-52 | A mixed run is legal and has room if and only if each ticker's own run does |
| Tickers.FeedRebuildsEachBook | src/exchange/matcher/matching_engine.h:64-72 | The exchange's whole feed, filtered for one ticker, replays to that ticker's resting orders |
| Engine.MatchingEngine.ProcessClientRequest | src/exchange/matcher/matching_engine.h:27-52 | Dispatch on the linked books: the addressed book and both streams change as specified, every other book stays as it was, and an invalid type is refused and changes nothing |
| Engine.MatchingEngine.Run | src/exchange/matcher/matching_engine.h:74-89 | Rounds of the loop until the queue is empty equal, on the linked books, the specification's whole run: books, responses and updates, all books valid at the end |
| Engine.MatchingEngine.PollOnce | src/exchange/matcher/matching_engine.h:78-87 | One round of the loop on the linked books takes and does exactly the oldest request, or nothing when none waits |
| Tickers.LoopDoesAPrefix | src/exchange/matcher/matching_engine.h:74-89 | However the producer's requests and the rounds of the spinning loop interleave, at every moment the run of a prefix of the requests has been done, in order, and the others wait |
| Tickers.DispatchConcat | src/exchange/matcher/matching_engine.h:74-89 | Running two batches one after the other is running both at once |
| Engine.MatchingEngine.constructor | src/exchange/matcher/matching_engine.cpp:4-17 | Eight valid empty books that share nothing |

## Left out

- OrderBook.Outgoing.SendClientResponse: appends to an unbounded sequence, because the capacity of the two outgoing queues is the queue's own matter (`LFQueues`, `Spsc`), and a book's contract would only carry a count of its messages along.
- OrderBook.Outgoing.SendMarketUpdate: likewise.
- OrderBook.MEOrderBook.Add: says nothing about a request without room; there the source ends the process (pool) or queues the order at the level of another price (price table), after which nothing can describe the specified book, as `CollisionFitsNoStructure` says.
- Engine.MatchingEngine.Run: the loop is cut into rounds, which interleave with the producer in `Tickers.LoopDoesAPrefix`; turns inside one queue operation are in `Spsc`, and `run_` is not modelled.
- LFQueues.LFQueue.UpdateReadIndex: the ASSERT stands behind the index store in the source; here it is a precondition, and its place matters only between threads, which is in `Spsc`.
- Sequencer.StdSort: its body is one possible sort; callers see only that the result is sorted and a permutation.
- OrderServers.TCPSocket.Send: outgoing data are numbers and responses, not their bytes; the outbound buffer's capacity and its flush to the operating system are not modelled.
- Framing.Decode: `reinterpret_cast` is modelled as reading the packed little-endian fields; a side byte that is no code is read as the invalid side.
- Loggers, `toString`, time strings, thread creation, signal handling and `main.cpp`: input and output only.
- epoll, sockets, multicast and socket options: system calls; a read is a parameter.
- `MarketDataPublisher`: only declared in the repository.
- Weak memory: the atomics are sequentially consistent by default, and so are the steps of `Spsc`.
- Wrap-around of 64-bit ids, priorities and sequence numbers.
