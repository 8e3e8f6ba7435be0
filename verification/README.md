# Verification of the trading simulator's core

A Dafny model of the simulator's state machines and algorithms, with proofs about all inputs, all runs and all
interleavings. `dafny verify dfyconfig.toml` checks it.

## What is modelled

* **Matching engine, order book, router** (`ExchangeTypes`, `PriceTime`, `EngineSpec`, `EngineInvariant`,
  `EngineTheorems`, `RouterSpec`, `FillRecords`, `BookLevels`, `BookInvariant`, `OrderBook`, `SweepSteps`, `MatchingEngine`,
  `OrderRouter`, `ExecutionSim`). The specification works on one price-then-time list per side. The classes
  keep level maps of queues, the order table and the side table, change them as the program does, and are proved
  against the specification. Theorems about the specification and about whole router runs therefore hold of the
  objects. A level map is a sequence of levels in map order; an order travels in and out of a call by value,
  since its fields are all values.
* **Lock-free queues and the byte ring** (`PowersOfTwo`, `MpscQueue`, `SpscQueue`, `ByteRing`). Every atomic access
  is a step; a run is any list of steps of any producers and the consumer. Classes with uninterrupted methods are
  proved to be runs of those steps.
* **Wire format, parser, multicast receiver** (`Bytes`, `Crc32`, `WireFormat`, `ParserSpec`, `BinaryParser`,
  `ReorderWindow`, `UdpFeed`). The checksum is CRC-32 of section 8 of RFC 1952, with bitwise division as the reference. A message
  is the bytes of its structure with the sizes 128, 128, 8, 8 and 16.
* **Point-in-time data** (`TickStore`, `BarBuilder`, `DataPortal`).
* **Mean reversion** over exact reals (`MeanReversion`), with the square root as a parameter; the **parameter scan**
  (`ParameterScan`); the **configuration** printer and parser (`Config`); **maximum drawdown** (`Performance`).
* `Basics` holds what several of them share.

Prices, quantities, counters and identifiers are unbounded integers. Where the program throws, the model returns
an error value or leaves the state as it was.

## Where code and comments differ

* The header of the execution simulator calls negative slippage worse (`exchange/include/exchange/execution_sim.hpp:15`); the code
  makes positive worse, and so does the model.
* The portal's header says that returned bars have `close_ts <= current_ts_`
  (`market_data/include/market_data/data_portal.hpp:88`); the newest bar may still be open.
  `DataPortals.ReturnedBarsClosedExactlyWhen` gives the exact condition and `DataPortals.OpenBarReturned` a call.
* The drawdown is the largest relative fall only while values stay non-negative (`portfolio/src/performance.cpp:28-38`);
  `Performance.LargestFallExactlyWhen` gives the exact condition and `Performance.NegativeValuesEscape` a series.
* The wire format's header describes the heartbeat payload as empty; the encoder sends eight bytes, and the parser
  accepts both.
* The strategy's header names Welford's algorithm; the code keeps two running sums.

## Model

| member | source | states |
|---|---|---|
| `PriceTime.BestExecution` | exchange/src/matching_engine.cpp:201-248 | Taking the first n shares of a price-time list costs a buyer no more, and pays a seller no less, than any other allocation of the same n shares over the resting orders |
| `PriceTime.SweepIsMaximal` | exchange/src/matching_engine.cpp:201-248 | No allocation that respects the limit takes more shares than the crossable shares the sweep sees |
| `PriceTime.AvailableIsWithin` | exchange/src/matching_engine.cpp:201-231 | Stopping the sweep at the first unacceptable price loses nothing: what it sees are all shares resting within the limit |
| `PriceTime.Priority` | exchange/src/matching_engine.cpp:202-224 | The order at position i is taken exactly what is left of n once everything in front of it is taken in full |
| `EngineInvariant.NothingCrossableLeft` | exchange/src/matching_engine.cpp:97-110 | Once all crossable shares are taken, the best remaining contra price does not cross the limit, so the remainder may rest |
| `EngineInvariant.ProcessKeepsInv` | exchange/src/matching_engine.cpp:18-41 | Market, Limit, IOC and FOK processing keeps the whole invariant: sorted sides, distinct listed identifiers backed by the order table with positive leaves, side table equal to the listed identifiers, bids strictly below asks |
| `EngineInvariant.CancelKeepsInv` | exchange/src/order_book.cpp:49-68 | Cancelling keeps the same invariant |
| `EngineTheorems.RestingIsLeaves` | exchange/include/exchange/order_book.hpp:76-130 | In every valid state the two sides offer for an order exactly the leaves the order table records, and nothing for orders that are filled but kept in the table |
| `EngineTheorems.FokAtomic` | exchange/src/matching_engine.cpp:121-140 | A fill-or-kill order with no earlier fills is filled completely if enough shares rest within its limit, and otherwise leaves book, fills and fill counter unchanged; an order with earlier fills is always rejected, because availability is counted against leaves but compared with the whole quantity |
| `EngineTheorems.ProcessConserves` | exchange/src/matching_engine.cpp:259-313 | For every order, fills plus leaves change only by the shares the submitted order brings in and the shares it gives up; takers and makers trade equal quantities |
| `EngineTheorems.CancelConserves` | exchange/src/order_book.cpp:49-68 | A cancel gives up exactly the order's resting shares, changes no other order's account and no fill |
| `EngineTheorems.OrderGetsBestExecution` | exchange/src/matching_engine.cpp:201-248 | For a whole submitted order: no other allocation of the traded quantity is cheaper for a buyer or dearer for a seller, and none within the limit trades more |
| `EngineTheorems.TradedQuantity` | exchange/src/matching_engine.cpp:143-256 | The traded quantity is the smaller of leaves and the shares resting within the limit, costs what the first takes cost, and every resting order is filled with what was taken from it |
| `EngineTheorems.PriceTimePriority` | exchange/src/matching_engine.cpp:202-247 | A resting order is filled by exactly the part of the trade that exceeds all shares ahead of it in price-then-time order |
| `EngineTheorems.NoTradeThrough` | exchange/src/matching_engine.cpp:201-248 | The fill log only grows, and every new fill of a limited order is at its limit or better |
| `EngineTheorems.ContraAfter` | exchange/src/matching_engine.cpp:201-248 | The contra list loses its front and nothing else in it moves |
| `EngineTheorems.OwnSideAfter` | exchange/src/matching_engine.cpp:97-110 | On the own side only a limit residual appears, behind every order at its price or better and in front of every worse one |
| `EngineTheorems.CancelInPlace` | exchange/src/order_book.cpp:49-68 | A cancel takes the order out of its list and its table entry; every other order, place and fill stays |
| `FillRecords.NewFills` | exchange/src/matching_engine.cpp:259-313 | Every new fill is either the submitted order's, with its identifier, symbol and side, or a resting order's of the other side, with its identifier, symbol and side and at its own limit price; both of an execution agree on price and quantity, and every one carries the time of the call and the next unused identifier |
| `FillRecords.FinalStatus` | exchange/src/matching_engine.cpp:18-41 | Where the submitted order ends: Rejected without a trade, Filled, PartiallyFilled or unchanged with a residual at rest, Cancelled with any other residual; last-fill time, submit time and reason included, all other fields as submitted |
| `FillRecords.MakerStatus` | exchange/src/matching_engine.cpp:297-307 | Every resting order after the call: untouched if it got nothing, otherwise with what it got, the time of the call, and Filled exactly when nothing is left |
| `FillRecords.EveryFillHasItsOpposite` | exchange/src/matching_engine.cpp:259-313 | After any run of the router the fills of an engine are numbered 1, 2, 3 and so on, carry its symbol, and come as one buy and one sell of different orders at the same price, quantity and time, the taker first |
| `EngineTheorems.QueuePositionIsExact` | exchange/src/order_book.cpp:188-200 | All shares ahead of an order are those at better prices plus its queue position |
| `EngineTheorems.StoredQueuePosition` | exchange/src/order_book.cpp:16-46 | The position stored when an order comes to rest is the one the book then reports |
| `BookLevels.FlatEnqueue` | exchange/include/exchange/order_book.hpp:36-38 | Pushing an identifier onto its price level inserts the order in the flat price-time list behind every order at its price |
| `BookLevels.FlatDequeue` | exchange/include/exchange/order_book.hpp:42-51 | Erasing an identifier from its level, and the level when empty, removes the order from the flat list and nothing else |
| `BookLevels.FlatReduce` | exchange/src/order_book.cpp:71-94 | Reducing an order in the table reduces its entry of the flat list and no other |
| `BookLevels.SharesAtLevel` | exchange/src/order_book.cpp:16-46 | The shares summed over a price level are the flat list's shares at that price |
| `BookLevels.BeforeAtLevel` | exchange/src/order_book.cpp:188-200 | The shares summed over a level up to an order are the flat list's shares at its price before it |
| `BookLevels.DepthIs` | exchange/src/order_book.cpp:143-161 | Each entry of a depth snapshot has the total shares and the number of the orders at its price, prices get worse from entry to entry, and an order at none of them is worse than all and the snapshot full |
| `BookInvariant.AddOk` | exchange/src/order_book.cpp:16-46 | After add the four linked structures are consistent again and stand for the flat list with the order inserted |
| `BookInvariant.CancelOk` | exchange/src/order_book.cpp:49-68 | After cancel they are consistent and stand for the flat list without the order |
| `BookInvariant.ReduceOk` | exchange/src/order_book.cpp:71-94 | After reduce_qty, whether the order is then filled or not, they are consistent and stand for the reduced flat list |
| `OrderBooks.BookSide.AddOrder` | exchange/include/exchange/order_book.hpp:36-38 | The level map after pushing the identifier at its price, levels in map order |
| `OrderBooks.BookSide.RemoveOrder` | exchange/include/exchange/order_book.hpp:42-51 | The level map after erasing the first occurrence, and whether the level disappeared |
| `OrderBooks.BookSide.BestPrice` | exchange/include/exchange/order_book.hpp:56-59 | The price of the first resting order, which no order of the side betters whatever the orders are, or none exactly when nothing rests |
| `OrderBooks.OrderBook.Add` | exchange/src/order_book.cpp:16-46 | Refines resting on the flat list, including the stored queue position |
| `OrderBooks.OrderBook.Cancel` | exchange/src/order_book.cpp:49-68 | Refines cancelling on the flat list and reports whether the order was found |
| `OrderBooks.OrderBook.ReduceQty` | exchange/src/order_book.cpp:71-94 | Refines the reduction on the flat list, with the final state kept in the order table |
| `OrderBooks.OrderBook.Depth` | exchange/src/order_book.cpp:143-161 | The loop yields the first n levels with their total leaves and order counts, which BookLevels.DepthIs reads on the price-time list |
| `OrderBooks.OrderBook.QueuePosition` | exchange/src/order_book.cpp:172-200 | The shares ahead at the order's own price, zero for an order that does not rest |
| `SweepSteps.SweepStep` | exchange/src/matching_engine.cpp:202-224 | One turn of the sweep loop, with at least one share, followed by the sweep of what is left is the sweep |
| `SweepSteps.SweepDone` | exchange/src/matching_engine.cpp:203-210 | The loop's exits leave nothing for the sweep to do |
| `MatchingEngines.MatchingEngine.EmitFill` | exchange/src/matching_engine.cpp:259-313 | The two fill records field by field, with consecutive identifiers, each with its own order's identifier, symbol and side, and both orders' new states |
| `MatchingEngines.MatchingEngine.CheckContra` | exchange/src/matching_engine.cpp:166-199 | The check-only pass returns exactly what the real sweep fills |
| `MatchingEngines.MatchingEngine.ExecuteContra` | exchange/src/matching_engine.cpp:201-248 | The real sweep loop over best price, queue front, fill and reduction is the specified sweep, and terminates |
| `MatchingEngines.MatchingEngine.MatchMarket` | exchange/src/matching_engine.cpp:85-94 | Sweep without a limit, remainder cancelled |
| `MatchingEngines.MatchingEngine.MatchLimit` | exchange/src/matching_engine.cpp:97-110 | Sweep within the limit, remainder rests or is cancelled |
| `MatchingEngines.MatchingEngine.MatchIoc` | exchange/src/matching_engine.cpp:113-118 | The borrowed limit type leaves no trace: an IOC order is swept, its remainder cancelled, its type restored |
| `MatchingEngines.MatchingEngine.MatchFok` | exchange/src/matching_engine.cpp:121-140 | Rejection with nothing changed, or the sweep |
| `MatchingEngines.MatchingEngine.Process` | exchange/src/matching_engine.cpp:18-41 | The object refines the specification for which the theorems above are proved |
| `RouterSpec.NeverCrossed` | exchange/src/order_router.cpp:70-91 | After any run of registrations, submissions and cancels over any symbols, every bid is strictly below every ask |
| `RouterSpec.SharesAreConserved` | exchange/src/order_router.cpp:70-91 | After any such run, for every identifier issued, filled plus resting plus given-up shares equal those submitted, and aggressive equals passive quantity in every book |
| `RouterSpec.CancelFindsExactlyResting` | exchange/src/order_router.cpp:152-170 | In every reachable state a cancel succeeds exactly for orders resting in some book, and never twice |
| `RouterSpec.SubmitExactly` | exchange/src/order_router.cpp:54-91 | An identifier is issued exactly for a positive quantity, a registered symbol, side Buy or Sell and, unless it is a market order, a positive limit; then it is the next one and the engine processes the order as new; otherwise nothing changes and the reason is UnknownSymbol exactly when the symbol is not registered |
| `RouterSpec.CancelExactly` | exchange/src/order_router.cpp:152-170 | A cancel that finds nothing changes nothing; otherwise the order leaves the router's table and its engine's, and no other order, symbol, fill or counter changes |
| `OrderRouters.OrderRouter.Register` | exchange/src/order_router.cpp:15-25 | A new engine with a book of its own, disjoint from all others; a second registration changes nothing |
| `OrderRouters.OrderRouter.Validate` | exchange/src/order_router.cpp:54-67 | Accepts exactly a positive quantity on a registered symbol with side Buy or Sell and, unless it is a market order, a positive limit |
| `OrderRouters.OrderRouter.Submit` | exchange/src/order_router.cpp:70-91 | Refines the router step of the run theorems; issues the next identifier exactly for the orders just described, and otherwise leaves the state alone and answers Rejected with UnknownSymbol or InvalidQuantity |
| `OrderRouters.OrderRouter.Cancel` | exchange/src/order_router.cpp:152-170 | Refines the cancel step: found exactly when the order rests under its symbol, then gone from the table; otherwise nothing changes |
| `ExecutionSim.BookWalkSlippage` | exchange/src/execution_sim.cpp:52-80 | The walk yields the distance, in the direction that hurts, from the arrival price to the whole-number average of what the quantity costs, the last level continued beyond the depth; zero without arrival price, quantity or depth |
| `ExecutionSim.WalkIsTakes` | exchange/src/execution_sim.cpp:60-71 | Within the depth, the walk's cost is the cost of the first q shares of the price-time list |
| `ExecutionSim.WalkPredictsMarketOrder` | exchange/src/execution_sim.cpp:52-80 | Over the first n levels of the contra side the cost of the walk equals the sum of price times quantity over the fills a market order of that size produces, whenever it fits in those levels |
| `ExecutionSim.SlippageIsPaid` | exchange/src/execution_sim.cpp:52-80 | A market order within the depth pays the estimated average, arrival plus slippage or minus it, for each share up to less than one price unit a share |
| `ExecutionSim.SlippageOfBookCost` | exchange/src/execution_sim.cpp:52-80 | For any quantity the same average is that of the first shares of the price-time list as far as the levels reach and the last level's price for the rest |
| `ExecutionSim.AverageGrows` | exchange/src/execution_sim.cpp:57-73 | On depth sorted from the best price the average moves away from the best price as the quantity grows, beyond the depth too |
| `ExecutionSim.SlippageGrows` | exchange/src/execution_sim.cpp:52-80 | With the best level as arrival price slippage is never negative and never decreases with quantity, despite integer division |
| `ExecutionSim.SlippageMonotone` | exchange/src/execution_sim.cpp:52-80 | The same monotony for any arrival price, and for prices of any sign |
| `ExecutionSim.DepthIsSorted` | exchange/src/order_book.cpp:143-161 | The depth reported for a valid side of a book is sorted from the best price, so the slippage results hold of real books |
| `ExecutionSim.SlippageOnBook` | exchange/src/execution_sim.cpp:52-80 | Over the first n levels of a valid side, against its best price, slippage is non-negative and never decreases with quantity |
| `ExecutionSim.SlippageNonNegative` | exchange/src/execution_sim.cpp:52-80 | With the best level as arrival price slippage is never negative |
| `MpscQueues.StepKeeps` | event_driven_core/include/event_driven_core/lock_free_queue.hpp:114-134 | Every atomic step of producers and consumer keeps the invariant: chain from tail to head allocated and distinct, links stored or pending, private nodes private, no leaked node, history equal to what was exchanged |
| `MpscQueues.FirstInFirstOut` | event_driven_core/include/event_driven_core/lock_free_queue.hpp:114-134 | Under every interleaving the values delivered are a prefix of the values in exchange order, and no step touches a freed node |
| `MpscQueues.TouchedNodesAreAllocated` | event_driven_core/include/event_driven_core/lock_free_queue.hpp:114-134 | Under every interleaving each node that the next step of a producer or the consumer reads, writes or frees is allocated |
| `MpscQueues.ReclaimedIsUnreachable` | event_driven_core/include/event_driven_core/lock_free_queue.hpp:118-132 | A node about to be deleted is not the head or tail, not an end of any pending link, not private to a producer, and no queued node links to it |
| `MpscQueues.EmptyExactlyWhen` | event_driven_core/include/event_driven_core/lock_free_queue.hpp:122-128 | An idle dequeue returns nothing exactly when all is delivered or the next value's producer is between its exchange and its link |
| `MpscQueues.DrainDeliversAll` | event_driven_core/include/event_driven_core/lock_free_queue.hpp:122-134 | With no link pending and the consumer idle, repeated dequeues deliver everything ever exchanged |
| `MpscQueues.EverythingExchangedIsDelivered` | event_driven_core/include/event_driven_core/lock_free_queue.hpp:114-134 | From every reachable state, whatever calls are in flight, finishing the pending links and the consumer's call and then draining delivers every exchanged value |
| `MpscQueues.EnqueueRuns` | event_driven_core/include/event_driven_core/lock_free_queue.hpp:114-120 | The three producer steps run to the end append one linked node |
| `MpscQueues.DequeueRuns` | event_driven_core/include/event_driven_core/lock_free_queue.hpp:122-134 | The three consumer steps run to the end hand out the oldest value and free the old tail, or change nothing |
| `MpscQueues.MpscQueue.Enqueue` | event_driven_core/include/event_driven_core/lock_free_queue.hpp:114-120 | The method on the object is that run of atomic steps and appends the value |
| `MpscQueues.MpscQueue.Dequeue` | event_driven_core/include/event_driven_core/lock_free_queue.hpp:122-134 | The method is that run of atomic steps and returns the oldest undelivered value |
| `MpscQueues.MpscQueue.Destroy` | event_driven_core/include/event_driven_core/lock_free_queue.hpp:102-109 | The addresses the destructor frees are all different and are exactly the allocated ones |
| `SpscQueues.Create` | event_driven_core/include/event_driven_core/lock_free_queue.hpp:28-33 | The mask test accepts exactly the positive powers of two |
| `SpscQueues.StepKeeps` | event_driven_core/include/event_driven_core/lock_free_queue.hpp:38-69 | Every atomic step of producer and consumer keeps positions, slot contents and ready flags consistent |
| `SpscQueues.FirstInFirstOut` | event_driven_core/include/event_driven_core/lock_free_queue.hpp:38-69 | Under every interleaving values come out in order, at most capacity - 1 are queued, a refusal saw exactly that many, and the second empty return can never be taken |
| `SpscQueues.AnswersAreExact` | event_driven_core/include/event_driven_core/lock_free_queue.hpp:38-69 | In every reachable state a producer is refused exactly when capacity - 1 values were queued as it saw the read position, a consumer is answered empty exactly when nothing was queued as it saw the write position, and a slot it goes on to read is ready |
| `SpscQueues.SidesDoNotShareASlot` | event_driven_core/include/event_driven_core/lock_free_queue.hpp:47-67 | The slot being stored into is never the slot being read |
| `SpscQueues.FullTest` | event_driven_core/include/event_driven_core/lock_free_queue.hpp:39-45 | The masked full test is exact |
| `SpscQueues.SpscQueue.Enqueue` | event_driven_core/include/event_driven_core/lock_free_queue.hpp:38-51 | The method is the run of its five steps and accepts exactly while fewer than capacity - 1 values are queued |
| `SpscQueues.SpscQueue.Dequeue` | event_driven_core/include/event_driven_core/lock_free_queue.hpp:53-69 | The method is the run of its five steps and returns the oldest value |
| `PowersOfTwo.MaskIsMod` | networking/src/tcp_feed.cpp:40-45 | Masking with 2^k - 1 is the remainder by 2^k, for every number |
| `PowersOfTwo.MaskTest` | event_driven_core/include/event_driven_core/lock_free_queue.hpp:29-29 | n & (n - 1) is zero for a positive n exactly when n is a power of two |
| `ByteRings.StepKeeps` | networking/src/tcp_feed.cpp:35-71 | Every step of a write or a read, byte by byte, keeps the ring consistent |
| `ByteRings.FirstInFirstOut` | networking/src/tcp_feed.cpp:35-71 | Under every interleaving of byte copies the bytes read are a prefix of the bytes written, and head minus tail stays within the capacity |
| `ByteRings.StaleIndexUnderReports` | networking/src/tcp_feed.cpp:36-37 | What a write took from a stale index still fits, and what a read took is still published, whatever the other side did meanwhile |
| `ByteRings.BeginTakesAll` | networking/src/tcp_feed.cpp:35-59 | A write begins with as many bytes as are free at that moment, a read with as many as are published, up to what is asked for |
| `ByteRings.CopiesDoNotOverlap` | networking/src/tcp_feed.cpp:44-68 | A byte being copied in and a byte being copied out never share a cell |
| `ByteRings.SpscRingBuffer.constructor` | networking/src/tcp_feed.cpp:27-33 | The capacity is the least power of two that is at least the requested size |
| `ByteRings.SpscRingBuffer.TryWrite` | networking/src/tcp_feed.cpp:35-52 | One or two chunk copies take as many bytes as are free, up to all of them, and append them to the contents |
| `ByteRings.SpscRingBuffer.TryRead` | networking/src/tcp_feed.cpp:54-71 | One or two chunk copies hand out as many of the oldest bytes as are there and fit, and remove them |
| `Crc32s.BitsLinear` | networking/src/binary_protocol.cpp:15-24 | The division steps are linear over exclusive or |
| `Crc32s.BitsInjective` | networking/src/binary_protocol.cpp:15-24 | The division steps are injective |
| `Crc32s.MakeCrcTable` | networking/src/binary_protocol.cpp:15-24 | Each table entry is the eight division steps of its index |
| `Crc32s.TableStep` | networking/src/binary_protocol.cpp:33-34 | One table lookup and shift equal eight division steps of the register |
| `Crc32s.Crc32` | networking/src/binary_protocol.cpp:30-37 | The table-driven loop computes the bitwise reference checksum |
| `Crc32s.BurstChangesCrc` | networking/src/binary_protocol.cpp:30-37 | Any change within four consecutive bytes changes the checksum |
| `Crc32s.ResidueTest` | networking/src/binary_protocol.cpp:195-203 | Data carries its own checksum exactly when data and trailer leave a fixed residue |
| `Crc32s.CheckValue` | networking/src/binary_protocol.cpp:15-37 | The checksum of the digits 1 to 9 is 0xCBF43926, the published check value |
| `WireFormat.U16RoundTrip` | networking/src/binary_protocol.cpp:46-62 | The length field reads back as written |
| `WireFormat.U32RoundTrip` | networking/src/binary_protocol.cpp:50-67 | The checksum field reads back as written |
| `WireFormat.BytesOnTheWire` | networking/src/binary_protocol.cpp:43-101 | The bytes of an encoded message one by one: magic from its low byte up, type code, payload length low byte first, payload of the structure's size, checksum low byte first |
| `WireFormat.WriteFrame` | networking/src/binary_protocol.cpp:70-88 | The buffer holds exactly the frame, or nothing is written when it is too small |
| `ParserSpec.ChunksDoNotMatter` | networking/src/binary_protocol.cpp:131-133 | Cutting a stream into chunks in any way changes neither results nor final state |
| `ParserSpec.NoStraddle` | networking/src/binary_protocol.cpp:135-152 | The magic has no border: garbage without a magic stays without one when followed by the start of a magic |
| `ParserSpec.FrameParses` | networking/src/binary_protocol.cpp:140-191 | After garbage without a magic, anything laid out as a frame is consumed whole, gives one result, and leaves the parser in its initial state |
| `ParserSpec.FrameOutcome` | networking/src/binary_protocol.cpp:193-260 | What a frame yields: BadCRC exactly when its last four bytes are not the checksum; otherwise its type code picks the structure, an unknown code gives UnknownType, a short payload Truncated except for a heartbeat, which reads as zeros, and a long one is cut off |
| `ParserSpec.EncodedFrame` | networking/src/binary_protocol.cpp:70-96 | An encoded message is such a frame and its result is the message |
| `ParserSpec.ParserInvertsEncoder` | networking/src/binary_protocol.cpp:140-260 | Any list of encoded messages with garbage in between gives exactly those messages in order and the initial state |
| `ParserSpec.ParserInvertsEncoderInChunks` | networking/src/binary_protocol.cpp:131-191 | The same for the stream cut into chunks in any way |
| `ParserSpec.DamageIsDetected` | networking/src/binary_protocol.cpp:193-205 | Changing up to four consecutive bytes of an intact frame, its magic and length kept, always gives BadCRC; payload, type byte and trailer included |
| `ParserSpec.DamageCostsOneMessage` | networking/src/binary_protocol.cpp:193-205 | A damaged frame between good ones yields one BadCRC and every other message |
| `ParserSpec.NothingIsInvented` | networking/src/binary_protocol.cpp:140-260 | For any byte stream the results are, one for one and in order, those of disjoint frames standing in the stream: none is reported twice, out of order or without a frame |
| `ParserSpec.UnusedErrors` | networking/src/binary_protocol.cpp:164-170 | BadMagic and PayloadTooLarge are never reported |
| `BinaryParsers.BinaryParser.ProcessByte` | networking/src/binary_protocol.cpp:140-191 | The object's byte step is the specified one and reports each result once |
| `BinaryParsers.BinaryParser.DispatchFrame` | networking/src/binary_protocol.cpp:193-260 | Checksum test, decoding, counters and reset as specified |
| `BinaryParsers.BinaryParser.Push` | networking/src/binary_protocol.cpp:131-133 | Pushing bytes refines the stream function of the theorems, and every result is counted as decoded or rejected |
| `ReorderWindow.DispatchedInOrder` | networking/src/udp_feed.cpp:252-289 | For any arrivals, with loss, duplicates and reordering, the frames dispatched are numbers 0 to expected - 1 once each in order, and what waits is ahead of expected and within the window |
| `ReorderWindow.ExpectedIsLeastMissing` | networking/src/udp_feed.cpp:252-289 | If the buffer never refused a frame, expected is the least number not received and exactly the received numbers beyond it wait |
| `ReorderWindow.GapsAreEarlyArrivals` | networking/src/udp_feed.cpp:260-262 | As long as the buffer refused nothing, a gap is counted exactly for every arrival before which some smaller number was missing |
| `ReorderWindow.BoundedReordering` | networking/src/udp_feed.cpp:252-289 | If frame s arrives at position at most s + window, nothing is dropped and all frames are dispatched in order |
| `ReorderWindow.BoundIsTight` | networking/src/udp_feed.cpp:266-270 | A case on the far side of that bound for every window size: number 0 arriving one position too late makes the buffer refuse a frame |
| `ReorderWindow.DeliversAllExactlyWhen` | networking/src/udp_feed.cpp:252-289 | For any order of arrival of the frames 0 to n - 1, the buffer refuses a frame exactly when some frame s arrives later than position s + window, and all are dispatched exactly when none does |
| `UdpFeeds.PrefixRoundTrip` | networking/src/udp_feed.cpp:26-47 | Symbol and sequence number read back as written before the frame |
| `UdpFeeds.DatagramOnTheWire` | networking/src/udp_feed.cpp:26-36 | The bytes of a datagram: symbol in four, sequence number in eight, low byte first, then the frame |
| `UdpFeeds.GapsAreCounted` | networking/src/udp_feed.cpp:260-262 | The gap counter is the number of datagrams beyond what their own symbol's window expected |
| `UdpFeeds.SymbolsAreIndependent` | networking/src/udp_feed.cpp:252-289 | A symbol's window and deliveries are those of its own packets alone, whatever other symbols' datagrams come in between |
| `UdpFeeds.ReorderedMessagesArriveInOrder` | networking/src/udp_feed.cpp:244-303 | Of the messages of one symbol, encoded, numbered from zero and reordered within the window among any other traffic, the ticks and bars are reported once each, intact and in order, and nothing else is |
| `UdpFeeds.AsyncUdpFeed.HandleDatagram` | networking/src/udp_feed.cpp:244-290 | The method with its drain loop refines the receiver step of the theorems |
| `UdpFeeds.AsyncUdpFeed.DispatchAndDrain` | networking/src/udp_feed.cpp:274-289 | The expected frame and then every buffered frame that follows without a gap |
| `TickStore.LowerBound` | market_data/src/binary_store.cpp:171-188 | The binary search stops at a boundary on any store, and on one in time order parts the records before ts from the rest |
| `TickStore.LastAtOrBefore` | market_data/src/binary_store.cpp:192-197 | The newest record not later than ts |
| `BarBuilder.BuildBars` | market_data/src/data_portal.cpp:116-187 | The one-pass aggregation equals the last n bars of the grouping, and every bar summarises exactly the ticks received from its open to its close time |
| `BarBuilder.BarSummarises` | market_data/src/data_portal.cpp:151-183 | On the fields of the ticks: a tick counts with its last price, or its bid if that is not positive; open is the first such price, close the last, low and high the least and greatest, vwap their value over the volume rounded toward zero and between low and high; a bar begins at its bucket and spans one bar length |
| `BarBuilder.LastBarsAreOnTheirTicks` | market_data/src/data_portal.cpp:116-187 | Every returned bar is such a summary of exactly the ticks from its open to its close time, and the bars are in the order of their times |
| `BarBuilder.SingleTickBar` | market_data/src/data_portal.cpp:157-171 | The bar of one tick shows its last price, or its bid without one, as all five prices |
| `BarBuilder.NextTick` | market_data/src/data_portal.cpp:146-179 | A tick extends the newest group or opens a new one and leaves all other bars alone |
| `BarBuilder.BarIsBounded` | market_data/src/data_portal.cpp:151-180 | Low <= open, close, vwap <= high in every bar, and low and high are prices of its ticks |
| `BarBuilder.BarsConserve` | market_data/src/data_portal.cpp:146-184 | Volumes and trade counts of the bars add up to those of the ticks |
| `BarBuilder.OnlyTheNewestBarIsOpen` | market_data/src/data_portal.cpp:146-187 | Of all bars over past ticks every one but the newest has ended by now |
| `DataPortals.NoLookahead` | market_data/src/data_portal.cpp:84-97 | History and bars depend only on ticks received by now |
| `DataPortals.BarsInsideAreWhole` | market_data/src/data_portal.cpp:190-195 | A bucket that begins inside the lookback has all its ticks; only the one the lookback cuts into may be short |
| `DataPortals.ReturnedBarsClosedExactlyWhen` | market_data/src/data_portal.cpp:190-195 | All bars a call returns have closed by now exactly when the span holds no tick, or its newest tick lies in an earlier bar length than the clock, or the clock stands at the last instant of a bar length |
| `DataPortals.OpenBarReturned` | market_data/src/data_portal.cpp:190-195 | A call that returns a bar whose close lies in the future: one tick at time 0, asked at time 0 |
| `DataPortals.DataPortal.AdvanceTo` | market_data/src/data_portal.cpp:55-58 | Time never goes backwards |
| `DataPortals.DataPortal.CurrentTick` | market_data/src/data_portal.cpp:61-65 | The newest tick that is not in the future |
| `DataPortals.DataPortal.History` | market_data/src/data_portal.cpp:84-97 | Two binary searches cut out exactly the slice of the store received in the lookback up to now |
| `DataPortals.DataPortal.HistoryBars` | market_data/src/data_portal.cpp:190-195 | The last n bars over n + 1 bar lengths up to now, each a summary of exactly its ticks |
| `DataPortals.DurationInNanoseconds` | market_data/src/data_portal.cpp:100-113 | Bar lengths: a second is 10^9, a minute 60 seconds, an hour 60 minutes, a day 24 hours, and tick or volume bars count in seconds |
| `MeanReversion.VarianceIsTrue` | strategy/src/mean_reversion.cpp:45-48 | The variance from the running sums is the mean squared distance from the mean, and non-negative |
| `MeanReversion.NewestIsBounded` | strategy/src/mean_reversion.cpp:45-52 | The newest price satisfies (price - mean)^2 <= (n - 1) * variance |
| `MeanReversion.EntryNeverFires` | strategy/src/mean_reversion.cpp:56-82 | With lookback - 1 <= entry_z^2 and entry_z >= 0 no Long or Short is ever signalled, for any closes |
| `MeanReversion.EntryFires` | strategy/src/mean_reversion.cpp:56-82 | With lookback - 1 > entry_z^2 a single step after a level stretch is signalled, Short for up and Long for down, so the condition is exact |
| `MeanReversion.WindowFollows` | strategy/src/mean_reversion.cpp:45-82 | That rule for every window, without deviation and with a negative entry_z included |
| `MeanReversion.MeanReversionStrategy.UpdateStats` | strategy/src/mean_reversion.cpp:23-53 | The rolling sums always match the last lookback closes; mean, deviation and z-score are those of that window |
| `MeanReversion.MeanReversionStrategy.OnBar` | strategy/src/mean_reversion.cpp:56-82 | Other symbols and the warm-up give no signal; otherwise the signal follows the rule on the squared distance of the close from the mean of the last lookback closes and on their variance: Short above and Long below beyond entry_z deviations, Flat within exit_z, none in between, with the strength determined |
| `ParameterScans.TurnAdvances` | research/src/parameter_scan.cpp:38-42 | One turn of the odometer goes from combination k to k + 1 |
| `ParameterScans.DigitFormula` | research/src/parameter_scan.cpp:31-42 | Digit i of combination k is k over the product of later sizes, modulo size i |
| `ParameterScans.ExactlyOnce` | research/src/parameter_scan.cpp:31-43 | Every choice of one value per range is visited exactly once |
| `ParameterScans.Lexicographic` | research/src/parameter_scan.cpp:31-43 | Combinations come in lexicographic order |
| `ParameterScans.AssignmentGives` | research/src/parameter_scan.cpp:33-35 | Each name maps to the value its wheel points at, the last wheel winning for a repeated name |
| `ParameterScans.AssignmentNames` | research/src/parameter_scan.cpp:33-35 | An assignment has exactly the given names |
| `ParameterScans.ParameterScan.CombinationCount` | research/src/parameter_scan.cpp:16-21 | Zero without ranges, otherwise the product of the sizes |
| `ParameterScans.ParameterScan.Combinations` | research/src/parameter_scan.cpp:24-45 | As many combinations as counted, the k-th being the assignment of position k |
| `ParameterScans.ParameterScan.TurnWheels` | research/src/parameter_scan.cpp:39-42 | The carry loop is one turn |
| `Configs.LineParses` | reporting/src/config.cpp:27-65 | How a line of indent, key, colon and rest changes section or store, comments, white space and quotes included |
| `Configs.TrimIs` | reporting/src/config.cpp:12-18 | Trimming takes blanks, tabs, carriage returns and newlines off both ends, all of them and nothing else |
| `Configs.UnquoteIs` | reporting/src/config.cpp:54-58 | One pair of double or single quotes comes off, and any other value stays |
| `Configs.DumpThenParse` | reporting/src/config.cpp:21-92 | For any store and any iteration order, parsing a dump restores the store exactly when every key is clean (no colon, comment sign or newline, trimmed, with a dot: trimmed parts and a first part) and every value is clean (not empty, trimmed, one line, no comment sign, no enclosing quotes) |
| `Configs.ParsedKeysAreKeyLike` | reporting/src/config.cpp:21-67 | No parsed key contains a colon, a comment sign, a newline or outer white space |
| `Configs.ParsedValuesAreLines` | reporting/src/config.cpp:21-67 | No parsed value contains a newline |
| `Configs.Config.Parse` | reporting/src/config.cpp:21-67 | The parsing loop computes the specified store |
| `Configs.Config.Dump` | reporting/src/config.cpp:79-92 | The text lists every entry once, in the map's order |
| `Performance.MaxDrawdown` | portfolio/src/performance.cpp:28-38 | No fall to a value that is not below zero is larger, relative to its start, and a positive result is the relative size of a fall that happened |
| `Performance.FallHappened` | portfolio/src/performance.cpp:28-38 | A positive drawdown times its start is a fall that happened from a positive point to a later one |
| `Performance.NoLargerFall` | portfolio/src/performance.cpp:28-38 | No fall from a point to a later non-negative point is larger than the one found |
| `Performance.PeakFallsFurther` | portfolio/src/performance.cpp:31-36 | The fall from the running peak is at least the fall from an earlier positive point exactly when the later value is not negative or the point is the peak |
| `Performance.LargestFallExactlyWhen` | portfolio/src/performance.cpp:28-38 | No pair of points falls further than the drawdown exactly when every fall from a positive value to a negative one is matched: nav[k] * nav[i] <= nav[j] * peak(k) for some k with a positive peak |
| `Performance.NegativeValuesEscape` | portfolio/src/performance.cpp:28-38 | A series on which that condition fails: over 1, 2, -3 the fall from 1 is larger than the drawdown |

## Left out

* Stop orders and `on_tick`: stops rest in the same levels as limits, so the no-cross claim does not cover them, and
  a triggered stop is used after its cancel erased it.
* Commissions, the fixed, linear and square-root slippage models, and the annotation of fills: rounding of doubles.
* Fill and report callbacks other than the fill log, execution reports, and the arrival-price and depth snapshots of
  the sweep, which the code computes and then ignores.
* The sweep's branch for a queued identifier without an order: in a valid book it cannot be taken, and it is replaced by that proof.
* Weak memory effects: every atomic access is sequentially consistent, and a load and the plain reads of its own
  side's fields are one step.
* 64-bit wrap-around of counters, indices, sequence numbers and price products.
* `size` and `empty` of the queues, best quantities, mid price and spread: one-line queries.
* The publisher's shared sequence counter: receivers expect a counter for each symbol, so delivery is claimed for a
  symbol whose packets are numbered from zero.
* The arguments of the gap callback; only the number of gaps is kept.
* Sockets, epoll, memory mapping, files, clocks, command line, reports.
- OrderBooks.OrderBook.Add: requires an identifier that is not in the order table and at least one share left; the engine calls it with nothing else, and with a known identifier the program overwrites the table entry while the old queue entry stays.
- MatchingEngines.MatchingEngine.ExecuteContra: requires an aggressor whose identifier is not in the order table, as the router's fresh identifiers guarantee; so do the five methods that call it.
- MatchingEngines.MatchingEngine.MatchMarket: requires an identifier that is not in the order table, see ExecuteContra.
- MatchingEngines.MatchingEngine.MatchLimit: requires an identifier that is not in the order table, see ExecuteContra.
- MatchingEngines.MatchingEngine.MatchIoc: requires an identifier that is not in the order table, see ExecuteContra.
- MatchingEngines.MatchingEngine.MatchFok: requires an identifier that is not in the order table, see ExecuteContra.
- MatchingEngines.MatchingEngine.Process: requires an identifier that is not in the order table; every order that reaches it through the router has a fresh one.
- OrderRouters.OrderRouter.Submit: requires a filled quantity of at most the quantity; beyond it the program's 64-bit subtraction wraps, and wrap-around is not modelled.
- DataPortals.DataPortal.RegisterStore: takes the identifier from the caller and keeps no ticker table; a store is assumed to be in time order with non-negative times, which the search and the grouping rely on.
- DataPortals.DataPortal.HistoryBars: requires a positive bar count per frequency, since the program divides by the bar length.
- MeanReversion.MeanReversionStrategy.UpdateStats: takes the square root of the variance as an argument; rounding of doubles is not modelled.
- MpscQueues.MpscQueue.Enqueue: takes the allocator's address as an argument and shows the call without interference; interleavings are covered by the step machine.
* Positions, portfolio and risk: `on_fill` uses the already reduced quantity when a position reverses, so the
  accounting identity one would state does not hold of the code.
* The thread pool and the event dispatcher's timing loops.
* Ratios with square roots and powers, moving-average sums, window lists and the typed configuration getters: rounding or easy.
