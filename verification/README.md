# The matching engine, proved

This project models the core of the exchange: the order book with its pooled price levels and orders, the
exchange that numbers and routes requests, the ring buffer and the sequencer in front of it. The stateful
components are classes with the fields of the original; what they compute is stated against a pure reference
matcher on two price-time sequences of orders, and the laws of the engine are proved about that matcher and
carried back to the classes. What the code does when it departs from the reference is a pure function too, and the
classes are proved to compute it on whole runs.

## How it is built

| file | subject |
|---|---|
| `Types.dfy`, `Matching.dfy` | messages, and the reference matcher: `Cross`, `AddOrder`, `CancelOrder`, `Step`, `Run` |
| `AsWritten.dfy`, `AsWrittenLaws.dfy`, `Lockstep.dfy` | the code without the missing link: a book, and the levels outside its chains; the laws that hold all the same; and how long it tells what the reference tells |
| `PriceLevel.dfy` | `Order` and `OrdersPriceLevel`: the circular doubly linked list of one price |
| `ObjectPool.dfy` | `ObjectPool`: the ring-scan allocator |
| `LevelViews.dfy`, `BookStructure.dfy`, `Limbo.dfy` | one side as a list of levels, the structure of a book as a value (chains, index, granted levels), and the levels beside it |
| `OrderBook.dfy`, `BookGuarantees.dfy` | `OrderBook` on the heap, its refinement of the matcher, and what its invariant says about real pointers |
| `BookLaws.dfy`, `PriceTime.dfy`, `Conservation.dfy`, `MarketData.dfy`, `OrderLife.dfy` | laws of every request and every run of one book |
| `ClientView.dfy`, `Ownership.dfy`, `ExchangeView.dfy`, `OpeningDay.dfy` | what requests tell and leave, read off the fields of requests, orders and messages: one request, every order and its owner, every request of a run, every run from the opening on |
| `ExchangeModel.dfy`, `ExchangeIds.dfy`, `ExchangeLaws.dfy` | the exchange as a function of its requests, and its laws |
| `ExchangeAsWritten.dfy` | the exchange with or without the link, and exactly when the two agree |
| `Exchange.dfy` | `Exchange` on the heap, up to the loop of `run` |
| `RingArithmetic.dfy`, `LFQueue.dfy`, `SpscQueue.dfy` | the queue as one thread sees it, and under every interleaving of two |
| `FifoSequencer.dfy`, `BatchRun.dfy` | batches sorted by receive time, and one batch from the sequencer to the books |

`dafny verify dfyconfig.toml` checks everything.

## The missing link

`insertPriceLevel` (include/cppexchange/orderbook.h:277-282) puts a new level into the map and points it at its
successor, but never points the predecessor at it. `OrderBook` therefore has a constant `linked`. With `false` it is
the code as written; with `true` it has the one missing `setNextPriceLevel` call, which is the only deviation in
behaviour in the project. Every contract holds for both values, and the invariant `OrderBook.Valid` is kept by both, but
for the cancels described below.

As written, a level that does not become the best one of its side is stranded: the map names it and no chain leads to
it. `AsWritten.AddAsWritten` and `CancelAsWritten` say what the code then does with a book and its stranded levels, and
`OrderBook.Add`, `OrderBook.Cancel` and `Exchange.Drain` are proved to do exactly that, over whole runs:

- A request strands nothing if and only if the book is `linked` or the request needs no link (`StrandsExactly`;
  `AddNeedsNoLink`: nothing rests, or the order's own side is empty, or its price is a new best price, or its price has
  a level already). A run strands nothing at any point if and only if that holds for each of its requests, and then it
  is the reference run (`AgreesExactly`).
- A run that strands orders can still tell its clients what the reference tells them. It does so, request by request,
  if and only if no taker of the run comes to a stranded order in the reference book; cancels never tell the two apart
  (`RunInStep`).
- The map and the chains agree if and only if nothing is stranded (`MapAgreesExactly`), and no walk from a best level
  comes to a stranded level or its price (`NoWalkReachesStrays`).
- The chains stay ordered and uncrossed, every quantity is accounted for when the stranded ones are counted, and no id
  rests twice before the counters wrap (`EveryRunAsWritten`, `DeskIsSound`, `EveryRunOfTheFloor`, `FloorIdsRestOnce`).
- A stranded order never trades, whatever is added later (`StrandedOrdersStay`), while the market data go on showing
  it to every subscriber (`StrandedIsAdvertised`). A desk that is not crossed becomes crossed by a request exactly when
  something of an add comes to rest at a price that a stranded order of the other side would have met
  (`CrossesExactly`); at the very price of that order the two end up on one level (`BothSidesAtOnePrice`).
- A cancel that empties a stranded level leaves the book sound if and only if the level's side has no best level and the
  level has no successor; every other cancel does (`CancelFate`, and the contract of `OrderBook.Cancel`).
  - When the side has a best level, the search for the predecessor runs off the end of the chain and the code goes
    through a null pointer (`PredecessorSearchRunsOff`; bid 10, bid 9, cancel 9: `SecondBidEndsTheProcess`).
  - When the side has none and the level has a successor, the cancel is answered and the successor becomes the best
    level. It has been released, or it has been granted again since; while it is released, no structure of granted
    levels has that best pointer (`BestGoneAstray`, `NoStructureAstray`; bid 10, bid 12, bid 11, cancel 10,
    cancel 12, cancel 11: `ThreeBidsGoAstray`, `GoesAstray`).
  A run has a meaning as long as it meets neither; the laws above are stated of such runs.
- A short run that needs the link is a bid at 10 and then a bid at 9; a sell order of both at 9 takes the first and joins
  the second (`SecondBidNeedsALink`, `LosesTheSecondBid`).

Other findings about the code as it is:

- A queue of size n delivers the right item exactly while at most n - 1 items are outstanding
  (`DeliversInOrderIff`). test/include/communication/lf_queue_test.cpp:27-36 pushes n items and expects to pop all
  of them; with n outstanding the indices coincide and the queue looks empty.
- A pool of size n grants n - 1 objects: the call that would make the n-th object live ends the process
  (`ObjectPool.GetObject`).
- Blocks of `order_pool` are never released, so a book can rest `MAX_ORDER_IDS - 1` orders in its lifetime
  (`RestedCountsAdds`, `RoomFor`). Where nothing is stranded, `Exchange.Drain` survives a run if and only if all of it
  fits (`AllFit`).
- What the sequencer publishes is determined by the batch exactly when requests with equal timestamps are equal
  (`PublicationIsSettled`), because the sort need not be stable.

## Model

| member | source | states |
|---|---|---|
| `LFQueues.DeliversInOrderIff` | include/communication/lf_queue.h:18-34 | the next pop hands out the oldest outstanding item (or nothing when there is none) if and only if fewer than n items are outstanding |
| `LFQueues.LFQueue.constructor` | include/communication/lf_queue.h:16 | an empty queue of n slots |
| `LFQueues.LFQueue.Push` | include/communication/lf_queue.h:23-26 | writes the item into the slot at the write index, advances the index, and extends the push history, also when it overwrites an unread slot |
| `LFQueues.LFQueue.Empty` | include/communication/lf_queue.h:18-21 | true exactly when the outstanding count is a multiple of the size |
| `LFQueues.LFQueue.Pop` | include/communication/lf_queue.h:28-34 | hands out the slot at the read index and advances it, or nothing when the indices meet; the slot holds the item named by `Delivered` |
| `SpscQueue.StepKeepsInvariant` | include/communication/lf_queue.h:18-34 | every step of producer or consumer keeps: unread items and the item handed out last are whole in their slots, delivered items are the pushed ones |
| `SpscQueue.WriteMissesReaders` | include/communication/lf_queue.h:23-34 | a push within the n - 1 bound writes neither an unread slot nor the slot of the pointer last returned by pop |
| `SpscQueue.TestIsExact` | include/communication/lf_queue.h:18-21 | within the bound, the indices coincide if and only if everything pushed has been taken |
| `SpscQueue.ScheduleKeepsInvariant` | include/communication/lf_queue.h:18-34 | the invariant holds after every interleaving of any length |
| `SpscQueue.ConsumerSeesThePushes` | include/communication/lf_queue.h:18-34 | after every interleaving the consumer has seen exactly a prefix of the pushes, in order and whole, none lost or twice; the item handed out last is intact in its slot until the next successful pop |
| `SpscQueue.BoundIsTight` | include/communication/lf_queue.h:23-26 | with n - 1 items outstanding, one more write destroys the item handed out last, and publishing it would make the queue look empty |
| `SpscQueue.PushInThreeSteps` | include/communication/lf_queue.h:23-26 | a push without interruption does to the ring what `LFQueue.Push` does |
| `SpscQueue.PopInTwoSteps` | include/communication/lf_queue.h:28-34 | a pop without interruption does to the ring what `LFQueue.Pop` does |
| `ObjectPools.ObjectPool.constructor` | include/utils/object_pool.h:17 | every block free, none live |
| `ObjectPools.ObjectPool.GetObject` | include/utils/object_pool.h:19-31 | grants the object at `next_free`, which is not live, moves on to the next free block around the ring, and fails if and only if it would use the last block |
| `ObjectPools.ObjectPool.UpdateNextFree` | include/utils/object_pool.h:63-75 | the scan terminates, finds the first free block around the ring if there is one, and reports failure if and only if there is none |
| `ObjectPools.ObjectPool.FullExactlyByCount` | include/utils/object_pool.h:63-75 | a free block exists exactly when fewer objects are live than blocks exist |
| `ObjectPools.ObjectPool.ReleaseObject` | include/utils/object_pool.h:33-41 | succeeds exactly on live objects and removes exactly that object from the live ones |
| `PriceLevels.Order.Init` | include/cppexchange/order.h:31-46 | the constructed order carries the arguments and is in no list |
| `PriceLevels.OrdersPriceLevel.Init` | include/cppexchange/order.h:53-54 | an empty level with its price, side and successor |
| `PriceLevels.OrdersPriceLevel.Add` | include/cppexchange/order.h:73-84 | appends to the queue; `next` and `previous` stay inverse walks around one cycle that starts at the top order |
| `PriceLevels.OrdersPriceLevel.Cancel` | include/cppexchange/order.h:86-109 | deletes exactly the first order with the id and returns it unlinked, or changes nothing and returns null; the search terminates |
| `PriceLevels.OrdersPriceLevel.Unlink` | include/cppexchange/order.h:94-103 | the neighbours of the order meet around it and the top order moves on when it was the top |
| `PriceLevels.CutCycle` | include/cppexchange/order.h:94-103 | what is left of the cycle is a cycle through the remaining orders |
| `LevelViews.AppendIsInsert` | include/cppexchange/orderbook.h:46-61 | appending to the level of a price is insertion behind all orders of equal or better price |
| `LevelViews.OpenIsInsert` | include/cppexchange/orderbook.h:256-285 | opening a level where the walk stops is insertion in price-time order |
| `LevelViews.GradedIsWellFormed` | include/cppexchange/orderbook.h:136-168 | strictly sorted levels of both sides with the best prices apart make an ordered, uncrossed book |
| `LevelViews.LevelsArePrices` | include/cppexchange/orderbook.h:244-254 | a side has one level for each different price |
| `BookStructure.StructuredRemoved` | include/cppexchange/orderbook.h:287-317 | taking an empty level out of its chain, the map and the pool keeps chains, map and pool in agreement |
| `BookStructure.StructuredInserted` | include/cppexchange/orderbook.h:256-285 | a level linked where the walk stops keeps chains strictly sorted and in agreement with map and pool |
| `BookStructure.StructuredRefilled` | include/cppexchange/order.h:73-109 | changing the orders of one level keeps everything else; it may only leave that level empty |
| `BookStructure.CancelFlat` | include/cppexchange/orderbook.h:75-88 | the level found by price alone holds the order that a search of both sides finds |
| `BookStructure.OwnLevel` | include/cppexchange/orderbook.h:46-61 | after matching, the map names a level of the order's own side, although it is keyed by price only |
| `OrderBooks.OrderBook.constructor` | include/cppexchange/orderbook.h:16-25 | an empty book with both pools free |
| `OrderBooks.OrderBook.Predecessor` | include/cppexchange/orderbook.h:288-304 | the walk terminates at the level in front of the given one, with null for the best and for a side without levels; for a level outside the chains it finds nothing exactly when its side has a best level |
| `OrderBooks.OrderBook.RemovePriceLevel` | include/cppexchange/orderbook.h:287-317 | on a chain: the chain, the map and the pool lose exactly this level. Outside the chains: the search ends the process exactly when the side has a best level; otherwise the map and the pool lose this level and the best pointer takes its successor |
| `OrderBooks.OrderBook.Neighbours` | include/cppexchange/orderbook.h:261-275 | the walk stops at the first level that is not better, wherever in the chain |
| `OrderBooks.OrderBook.InsertPriceLevel` | include/cppexchange/orderbook.h:256-285 | the new level has the side and the price asked for and, as its successor, the first level that is not better; linked or best: the structure with it at its rank; otherwise it is in the map and everything else is as before; fails exactly when the level pool is down to its last block |
| `OrderBooks.OrderBook.Lookup` | include/cppexchange/orderbook.h:244-254 | the map entry at the price, created as null when absent |
| `OrderBooks.OrderBook.FillTop` | include/cppexchange/orderbook.h:191-204 | the top order loses the fill, and leaves its level exactly when nothing is left of it |
| `OrderBooks.OrderBook.Match` | include/cppexchange/orderbook.h:170-242 | one trade: state, both fills, TRADE then REMOVE or MODIFY, as the reference has them |
| `OrderBooks.OrderBook.MatchBest` | include/cppexchange/orderbook.h:146-154 | one turn of the loop is one trade with the first order of the opposite side, and strictly reduces the taker |
| `OrderBooks.OrderBook.CheckForMatch` | include/cppexchange/orderbook.h:136-168 | the loop terminates and computes `Cross`: opposite side, remainder, responses, updates, trade ids |
| `OrderBooks.OrderBook.Rest` | include/cppexchange/orderbook.h:49-61 | the desk after the remainder has rested: on its chain in price-time order, behind a stranded level, or stranded; fails exactly when a pool is down to its last block |
| `OrderBooks.OrderBook.TakeOut` | include/cppexchange/orderbook.h:76-87 | the desk without the order found by price and id, and without its level when that runs empty; and which of the three fates the book has |
| `OrderBooks.OrderBook.FateOfStray` | include/cppexchange/orderbook.h:287-309 | what becomes of a cancel on a stranded level shows in the best pointer of its side and in its successor |
| `OrderBooks.OrderBook.Add` | include/cppexchange/orderbook.h:27-73 | messages, trade ids and desk are those of `AddAsWritten`, in every state that any run can reach; fails if and only if the pools have no room; one more order block in use exactly when something rests |
| `OrderBooks.OrderBook.Cancel` | include/cppexchange/orderbook.h:75-123 | for every cancel, in every state that any run can reach: messages and desk are those of `CancelAsWritten` unless the process ends; the book is sound after it if and only if its fate is `Carried`; `Astray` leaves the stray's former successor as best level and everything else in order |
| `OrderBooks.OrderBook.ValidUnlessAside` | include/cppexchange/orderbook.h:287-309 | a side without levels is sound exactly when its best pointer is null |
| `OrderBooks.OrderBook.LevelAccounting` | include/cppexchange/orderbook.h:277-316 | the level pool holds one level for each price in the book and each stranded level, no more |
| `Limbos.SoundWith` | include/cppexchange/orderbook.h:277-284 | one more level outside the chains: the map and those levels still correspond, and what is stranded grows by it |
| `Limbos.SoundWithout` | include/cppexchange/orderbook.h:313-316 | one level fewer outside the chains: the same for what stays |
| `Limbos.LimboCounted` | include/cppexchange/orderbook.h:277-284 | as many stranded levels as prices that name one |
| `Limbos.RankIsLast` | include/cppexchange/orderbook.h:261-275 | the walk for a new level passes every level if and only if every order of the side is ahead of the price |
| `Limbos.TakenFlat` | include/cppexchange/orderbook.h:75-87 | a cancel on a level of a chain is the cancel on the whole book |
| `BookGuarantees.NothingDangles` | include/cppexchange/orderbook.h:244-317 | no map entry and no best pointer leads to a released level, no chain runs into one, every granted level is in the map with orders, and all its orders are in use |
| `BookGuarantees.PointersShowTheBook` | include/cppexchange/orderbook.h:129-131 | following the real pointers from the best level, strictly from better to worse, and around each cycle gives exactly the abstract side, and meets no price of a stranded level |
| `BookGuarantees.PointersInFull` | include/cppexchange/orderbook.h:129-131 | from the best pointer of a side through `next_price_level`, strictly from better to worse prices, and around each level, the orders are met in the order of the abstract side, field by field |
| `BookGuarantees.StraysInFull` | include/cppexchange/orderbook.h:277-282 | a stranded level is what the map names at its price: side, successor and orders, field by field |
| `BookGuarantees.DeskIsSound` | include/cppexchange/orderbook.h:136-285 | the desk of the class satisfies what `EveryRunAsWritten` starts from, in every valid state |
| `BookGuarantees.WalkIsUnique` | include/cppexchange/orderbook.h:261-275 | there is only one way to follow the pointers |
| `BookGuarantees.NoWalkReachesStrays` | include/cppexchange/orderbook.h:277-282 | a stranded level is in the map with its orders on it, and no list of levels that follows the pointers contains it or its price |
| `BookGuarantees.MapAgreesExactly` | include/cppexchange/orderbook.h:277-282 | the levels in the map are the levels on the two walks if and only if nothing is stranded |
| `BookGuarantees.PredecessorSearchRunsOff` | include/cppexchange/orderbook.h:288-304 | for every book with a stranded level and a best level on its side, the loop of `removePriceLevel` on the stranded level never meets its exit test and reaches a null successor |
| `BookGuarantees.BestGoneAstray` | include/cppexchange/orderbook.h:306-316 | a side that a cancel has sent astray has no order and a best level, which is released, on the other side, or stranded itself; the book is not sound |
| `BookGuarantees.NoStructureAstray` | include/cppexchange/orderbook.h:306-316 | no structure of granted levels whatever has a released level for its best |
| `BookGuarantees.BookIsWellFormed` | include/cppexchange/orderbook.h:136-168 | the chains of the class are ordered, have only live orders and never cross each other |
| `BookGuarantees.SecondBidNeedsALink` | include/cppexchange/orderbook.h:277-282 | a bid at 10 needs no link, a bid at 9 after it does; as written it is stranded and a sell order of both takes one and joins the other, where the reference fills both |
| `BookGuarantees.LosesTheSecondBid` | include/cppexchange/orderbook.h:277-282 | the two bids on the class: both rest when linked; as written the second is stranded |
| `BookGuarantees.SecondBidEndsTheProcess` | include/cppexchange/orderbook.h:288-304 | bid 10, bid 9: a cancel of the second would end the process |
| `BookGuarantees.ThreeBidsGoAstray` | include/cppexchange/orderbook.h:256-317 | bid 10, bid 12, bid 11, cancel 10, cancel 12: desk by desk, until a cancel of the third would send the book astray |
| `BookGuarantees.GoesAstray` | include/cppexchange/orderbook.h:256-317 | the same run on the class: in the end nothing rests and the best bid pointer is not null |
| `Matching.CrossStep` | include/cppexchange/orderbook.h:146-154 | one trade and then crossing the rest is crossing |
| `Matching.RemainingIgnoresIds` | include/cppexchange/orderbook.h:170-242 | trade ids have no influence on fills, responses or the book |
| `Matching.Find` | include/cppexchange/order.h:86-92 | the first order with this price and id |
| `AsWritten.StrandsExactly` | include/cppexchange/orderbook.h:256-285 | from a book without strays, one request has the reference's messages, and it strands nothing, and has the reference's book, if and only if it is linked or needs no link |
| `AsWritten.StrandedOrdersStay` | include/cppexchange/orderbook.h:136-168 | over every run that has a meaning, the orders of a stranded level stay on it unchanged as long as none is cancelled at its price: they never trade |
| `AsWrittenLaws.EveryRunAsWritten` | include/cppexchange/orderbook.h:27-123 | over every run that has a meaning, linked or not, with any stranded levels: the chains stay ordered, live and uncrossed and apart from them, accepted + before = filled + cancelled + after with stranded quantities counted in, and the updates take a mirror of all orders before to one of all orders after |
| `AsWrittenLaws.StrandedIsAdvertised` | include/cppexchange/orderbook.h:61-66 | over every run that has a meaning, as long as nothing is cancelled at its price, a stranded queue stays in front of the queue that the market data show there, and no chain has the price |
| `AsWrittenLaws.CrossesExactly` | include/cppexchange/orderbook.h:27-73 | a request crosses a desk that was not crossed if and only if it is an add with a remainder whose price a stranded order of the other side would have met |
| `AsWrittenLaws.BothSidesAtOnePrice` | include/cppexchange/orderbook.h:49-61 | a remainder at the price of a stranded order of the other side is put behind it: both sides rest on one level, at one price, and the desk is crossed |
| `Lockstep.NothingStrandedParts` | include/cppexchange/orderbook.h:16-25 | every sound book with nothing stranded beside it is where lockstep can start |
| `Lockstep.CrossInStep` | include/cppexchange/orderbook.h:136-168 | a taker that comes to no stranded order trades on the chains, message by message, as in the whole book |
| `Lockstep.AddInStep` | include/cppexchange/orderbook.h:27-73 | an add has the reference's updates if and only if the reference's taker comes to no stranded order; then all messages agree and the desk is again the reference book with some levels moved outside the chains |
| `Lockstep.CancelInStep` | include/cppexchange/orderbook.h:75-123 | a cancel always has the reference's messages, and leaves such a desk |
| `Lockstep.RunInStep` | include/cppexchange/orderbook.h:27-123 | a run that has a meaning tells, request by request, what the reference tells if and only if no taker comes to an order stranded by then |
| `BookLaws.CrossLeavesSuffix` | include/cppexchange/orderbook.h:136-168 | crossing leaves a suffix of the makers, and none that the taker would still accept |
| `BookLaws.AddKeepsWellFormed` | include/cppexchange/orderbook.h:27-73 | an add keeps order, liveness and an uncrossed book |
| `BookLaws.CancelKeepsWellFormed` | include/cppexchange/orderbook.h:75-123 | so does a cancel |
| `BookLaws.RunKeepsWellFormed` | include/cppexchange/orderbook.h:27-123 | so does every run |
| `BookLaws.NoPriceHoldsBothSides` | include/cppexchange/orderbook.h:244-254 | no run of the reference puts bids and asks at one price, so a map keyed by price is enough |
| `PriceTime.PriceTimePriority` | include/cppexchange/orderbook.h:136-242 | the fill is min(quantity, acceptable liquidity); each maker gets its closed-form `Amount` in price-time order; the four messages of each trade are given field by field, with the price of the maker in all of them; at most the last maker is left in part |
| `ClientView.AddTellsAll` | include/cppexchange/orderbook.h:27-73 | every message of an add, field by field: ACCEPTED with its own fields; then, for each order it meets, both FILLED and the TRADE with the fill at that order's price and REMOVE or MODIFY of it; then ADD of what remains. It meets orders as long as it wants more and the next price is within its limit, and no longer |
| `ClientView.AddLeavesAll` | include/cppexchange/orderbook.h:27-73 | the resting orders behind an add: the orders met are gone or smaller, all others of that side stay, and what remains rests with the fields of the request behind all orders as good and before all worse |
| `ClientView.AddFillsAllItCan` | include/cppexchange/orderbook.h:136-168 | it fills the smaller of its quantity and what rests at prices within its limit |
| `ClientView.DeskAddInFull` | include/cppexchange/orderbook.h:27-73 | the same with what is stranded: messages and the other side as on the chains alone, and the place of the rest on the chain or outside in plain comparisons |
| `ClientView.CancelInFull` | include/cppexchange/orderbook.h:75-123 | exactly one response: CANCELED, with one REMOVE, with the client and side of the request, the id, the price and the resting quantity when an order rests there, the first of which leaves; CANCEL_REJECTED to the client with its id and the invalid values when none does |
| `ClientView.DeskCancelInFull` | include/cppexchange/orderbook.h:75-123 | the same with what is stranded: an order is told and taken out if and only if one rests under the id at the price, on a chain or outside |
| `ClientView.RoomReads` | include/cppexchange/orderbook.h:49-61 | the pools have room if and only if the add is filled, or there is one more order block to spare and, at a price of its own, one more level than prices |
| `Ownership.RunIsOwned` | include/cppexchange/orderbook.h:27-123 | over every run that has a meaning whose adds have ids of their own: every order that rests or is stranded has the client, side and price that its id was added with, every FILLED goes to that client on that side at a price no worse than that limit, and every ACCEPTED repeats what was asked |
| `Ownership.EveryRunIsOwned` | include/cppexchange/cppexchange.h:37-69 | the same over every run of the exchange, with the ticker, in the words of the add requests and the ids they were given |
| `Ownership.OwnedFromTheStart` | include/cppexchange/cppexchange.h:37-75 | from empty books on this holds of every run until the id counter wraps |
| `Conservation.CrossConserves` | include/cppexchange/orderbook.h:136-242 | one crossing: taker, makers and trades agree on every quantity |
| `Conservation.RunConserves` | include/cppexchange/orderbook.h:35-123 | over every run and for every order id, accepted + resting before = filled + cancelled + resting after; buy fills = sell fills = traded |
| `Conservation.CrossSplits` | include/cppexchange/orderbook.h:136-242 | crossing with q1 and then q2 leaves what crossing with q1 + q2 leaves |
| `Conservation.SplitAdd` | include/cppexchange/orderbook.h:27-73 | adding q1 then q2 does to the opposite side, to the total and to every maker what adding q1 + q2 does |
| `MarketData.RunReplay` | include/cppexchange/orderbook.h:61-110 | replaying the updates of any run over a mirror of the book before gives a mirror of the book after: orders, quantities and queue positions |
| `MarketData.StreamRebuildsBook` | include/cppexchange/orderbook.h:61-110 | from the empty book on, the stream alone rebuilds the book |
| `OrderLife.AddCancelRoundTrip` | include/cppexchange/orderbook.h:49-88 | adding a non-crossing order with a new id and cancelling it restores the book, wherever its level goes, with these messages |
| `OrderLife.CancelKeepsOthers` | include/cppexchange/orderbook.h:75-88 | a cancel takes out at most the one order and keeps the order of all others |
| `OrderLife.AddTraceShape` | include/cppexchange/orderbook.h:61-72 | the updates of an add are (TRADE REMOVE)* and then nothing, one TRADE MODIFY, or one ADD |
| `OrderLife.RestedIsAnnounced` | include/cppexchange/orderbook.h:49-72 | a request announces an ADD exactly when it takes a block of the order pool |
| `OrderLife.RunIds` | include/cppexchange/orderbook.h:180-189 | the trades of every run of a book carry consecutive ids (mod 2^32) |
| `ExchangeModel.ProcessKeepsSound` | include/cppexchange/cppexchange.h:46-69 | every request keeps all books ordered and uncrossed |
| `ExchangeModel.TickersAreIndependent` | include/cppexchange/cppexchange.h:46-75 | an interleaved run projected to one ticker is that ticker's requests run alone: same book, same responses, same updates but for trade ids |
| `ExchangeModel.ProcessFirst` | include/cppexchange/cppexchange.h:37-44 | serving a request and then the rest is serving all of them, with the conditions split alike |
| `ExchangeModel.RestedCountsAdds` | include/cppexchange/orderbook.h:49-61 | over every run, order blocks in use grow by exactly the number of ADD updates of the ticker |
| `ExchangeIds.TradesAreNumbered` | include/cppexchange/cppexchange.h:27-28 | over all books together, TRADE ids are consecutive in emission order (mod 2^32) |
| `ExchangeIds.FloorTradesAreNumbered` | include/cppexchange/cppexchange.h:27-28 | the same linked or not, over every run that has a meaning |
| `ExchangeIds.RenumberingKeepsOrder` | include/cppexchange/cppexchange.h:117-128 | until the counter wraps, the trade ids of one ticker in the interleaved run are as many as alone and increasing |
| `ExchangeIds.IdsRestOnce` | include/cppexchange/cppexchange.h:75 | until the counter wraps, no two orders resting in a book share an id, however many tickers there are |
| `ExchangeIds.IdsRestInOneBook` | include/cppexchange/cppexchange.h:75 | nor do two orders resting in the books of two tickers |
| `ExchangeIds.FloorIdsRestOnce` | include/cppexchange/cppexchange.h:75 | the same of one ticker and of two linked or not, for resting and stranded orders together |
| `ExchangeLaws.EveryRunOfTheExchange` | include/cppexchange/cppexchange.h:37-69 | over every interleaved run, each ticker's book is uncrossed, is rebuilt by its part of the stream, and is accounted for by its part of the messages |
| `ExchangeLaws.EveryRunOfTheFloor` | include/cppexchange/cppexchange.h:37-69 | the same linked or not, for book and stranded levels together, over every run that has a meaning |
| `ExchangeAsWritten.TickersStandAlone` | include/cppexchange/cppexchange.h:46-75 | linked or not, an interleaved run that has a meaning, projected to one ticker, is that ticker's requests run alone: book, stranded levels, responses, and updates but for trade ids |
| `ExchangeAsWritten.ServeAgrees` | include/cppexchange/cppexchange.h:46-69 | without strays, one request has the reference's messages and fate, and it strands nothing if and only if it is linked or needs no link |
| `ExchangeAsWritten.AgreesExactly` | include/cppexchange/cppexchange.h:37-44 | a run strands nothing, at any point, if and only if it is linked or none of its requests needs the link; then books, messages and the end of the run are those of the reference |
| `ExchangeAsWritten.ServeFirst` | include/cppexchange/cppexchange.h:37-44 | serving a request and then the rest is serving all of them, as a whole or until the run ends, with the end split alike |
| `ExchangeAsWritten.CarriedIsServed` | include/cppexchange/cppexchange.h:37-44 | a run that is carried to its end is served as a whole |
| `ExchangeView.AddRequestInFull` | include/cppexchange/cppexchange.h:117-128 | an add request is accepted under the next order id with its own ticker, client, side, quantity and price; its book, and no other, does all that `ClientView` says of that add; both counters and the order count advance by what was used |
| `ExchangeView.CancelRequestInFull` | include/cppexchange/cppexchange.h:130-138 | a cancel request is answered to its client under its order id; its book, and no other, loses an order if and only if one rests there; the counters stay |
| `ExchangeView.EveryRequestIsAnswered` | include/cppexchange/cppexchange.h:37-69 | over every run that has a meaning the answers come in the order of the requests; the first answer to each goes to its client and repeats its fields, and adds get consecutive ids; invalid requests get none |
| `ExchangeView.EndsAtTheFirst` | include/cppexchange/cppexchange.h:37-44 | a run ends as the first request that is not carried, on the floor that it finds |
| `ExchangeView.UntilIsAPrefix` | include/cppexchange/cppexchange.h:37-44 | however a run ends, what is served of it is a run that has a meaning |
| `ExchangeView.FateInFull` | include/cppexchange/constants.h:14-15 | an add is carried if and only if pools of 8388608 orders and 131072 levels have room; a cancel as its book finds the order |
| `Exchanges.Exchange.constructor` | include/cppexchange/cppexchange.h:78-87 | before the loop over the initial tickers: none listed, both counters at 1 |
| `Exchanges.Exchange.Open` | include/cppexchange/cppexchange.h:78-92 | the whole constructor: the initial tickers listed on an empty exchange, and failure if and only if it is full before the last of them |
| `Exchanges.ListedAllIsUnion` | include/cppexchange/cppexchange.h:88-91 | listing succeeds if and only if it is never a ticker's turn while 16 are listed; then exactly the tickers named are listed beside the old ones, with empty books |
| `OpeningDay.EveryRunFromTheOpening` | include/cppexchange/cppexchange.h:27-75 | every run from `Open` on, as far as it is served: trades numbered 1, 2, 3 and so on over all books, requests answered in order with order ids from 1 on, and every order and message true to its owner |
| `OpeningDay.OpenAndServe` | include/cppexchange/cppexchange.h:37-91 | the same on the class: an exchange is opened and serves its queue |
| `Exchanges.Exchange.AddTickers` | include/cppexchange/cppexchange.h:88-91 | lists the initial tickers one by one, and fails if and only if the exchange is full before the last of them |
| `Exchanges.Exchange.AddTicker` | include/cppexchange/cppexchange.h:108-115 | an empty book for a new ticker, nothing for a known one, failure exactly when 16 are listed; all other books stay |
| `Exchanges.Exchange.OnlyOneBookChanged` | include/cppexchange/cppexchange.h:117-138 | work on one book leaves the invariant and the contents of all others alone |
| `Exchanges.Exchange.AddOrder` | include/cppexchange/cppexchange.h:117-128 | books, strays, messages and both counters after an add are those of `Serve`, linked or not; fails if and only if the request does not fit |
| `Exchanges.Exchange.CancelOrder` | include/cppexchange/cppexchange.h:130-138 | books, strays and messages after a cancel are those of `Serve`, for every cancel that does not end the process; the exchange is sound after it when its fate is `Carried` |
| `Exchanges.Exchange.ProcessRequest` | include/cppexchange/cppexchange.h:46-69 | the same for all three request types, with the fate of each; an invalid one changes nothing |
| `Exchanges.Exchange.NextRequest` | include/cppexchange/cppexchange.h:39-40 | the oldest pending request leaves the queue, or there is none |
| `Exchanges.Exchange.Drain` | include/cppexchange/cppexchange.h:37-44 | for every run, linked or not: serving the queue ends as `EndOf` says and, unless the process ends, with the books, strays and messages of `ServeUntil`; a run carried to its end leaves the queue empty and is `ServeAll` |
| `FifoSequencers.PublicationIsSettled` | include/communication/fifo_sequencer.h:16-51 | every sort of a batch publishes the same requests if and only if requests with equal timestamps are equal |
| `FifoSequencers.ArrivalOrderDoesNotShow` | include/communication/fifo_sequencer.h:28-51 | any two arrival orders of such a batch lead the exchange to the same books and messages |
| `FifoSequencers.Sort` | include/communication/fifo_sequencer.h:44 | a permutation with receive times that never decrease |
| `FifoSequencers.FifoSequencer.constructor` | include/communication/fifo_sequencer.h:23-26 | no pending requests |
| `FifoSequencers.FifoSequencer.AddRequest` | include/communication/fifo_sequencer.h:28-36 | appends the stamped request, and is fatal exactly at the 1025th |
| `FifoSequencers.FifoSequencer.SequenceAndPublish` | include/communication/fifo_sequencer.h:43-51 | pushes the requests of a permutation of the whole batch one by one with receive times that never decrease, and empties the batch |
| `BatchRuns.ServeBatch` | include/communication/fifo_sequencer.h:43-51 | publishing a batch and serving it ends as and where serving the batch in time order ends, with those messages, whatever order the requests arrived in |

## Left out

- Exchanges.Exchange.Drain: stops at a request that sends a book astray, which the original does not notice. What it does with that book later depends on what has become of a released level, and is not modelled; neither is anything behind a null pointer.
- Traces and split orders with stranded levels: `OrderLife` and `SplitAdd` speak of the reference. The trades of the code as written are the same `Cross` of the orders on the chains, so `PriceTime` holds of them as it stands.
- Cancelling: the order is located by price and id and the client id and side are echoed from the request, because the code checks neither.
- PriceLevels.OrdersPriceLevel.Cancel: needs a non-empty level, because the code dereferences the top order; the book only calls it so.
- SpscQueue.ConsumerSeesThePushes: index stores are sequentially consistent; weaker memory orders and more than one producer or consumer are not modelled.
- FifoSequencers.Sort: stands for `std::sort`, whose own algorithm is not modelled; its contract allows every sorted permutation.
- Reading a popped pointer: `NextRequest` copies the slot at once; that the slot stays intact while the pointer is in use is the subject of `SpscQueue`.
- Output queues: the book only appends to them, so their contracts speak of the push history; a reader that falls n items behind loses them, as `DeliversInOrderIff` says.
- Timestamps in messages and orders, and `Order.executed`: nothing in the engine branches on them.
- Unknown tickers: a precondition (`Known`); the code would insert and dereference a null book.
- INVALID sides: allowed, and treated as the code does, which takes the sell branch for everything that is not BUY.
- Process exit: a failed `ASSERT` or `FATAL` or a null pointer is reported as `false`, `None` or `Ended`, and nothing is promised about the state behind it. The original has no such reports; the checks for them are the model's own.
- Placement construction in `getObject`: the pool grants the block and the caller initialises it.
- The initial ticker list of the `Exchange` constructor: listed by `Open` behind the Dafny constructor, because a constructor cannot report failure.
- The order of steps in `match`: the list is brought up to date before the REMOVE is pushed; nothing reads it in between.
- The two mirrored branches for bids and asks: one loop with the comparison `Ahead` or `Acceptable` of the side.
- Pool sizes of a book: constructor arguments; `Exchange` passes the repository's constants.
- `start`, `stop`, threads and the `running` flag; sockets, packing, configuration, benchmarks: no provable behaviour of interest.
- Balances, fees, market orders and snapshots: described in RFC.md, not implemented.
