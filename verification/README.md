# Matching engine: a verified model

A Dafny model of the exchange simulator's core logic, with proofs about it:

- the levelled limit order book: continuous matching, fill-or-kill, stop orders, cancel, modify, and the
  opening auction (`Types`, `PriceTime`, `Tape`, `Ladder`, `Auction`, `BookSpec`, `Layout`, `Uncrossing`,
  `Width`, `Book`, `IndexAgreement`);
- whole runs of the book: accounts, conservation, safety of the trading phases (`Ledger`, `Accounts`, `Runs`,
  `Safety`, `OrderLaws`, `Cascade`), and what it tells the world, field by field (`Outcomes`, `AuctionOutcomes`,
  `RunOutcomes`); the actor that drives it (`MECore`, `EventTerms`), and the objects fed with runs (`Feeding`);
- the second matching engine, on flat sorted lists, and its agreement with the first (`FlatEngine`, `Twin`, `FlatRecords`);
- the assembly of fragment chains (`Iaca`);
- FIX framing, parsing and building, on both ends of the connection (`Fix`, `FixBuild`, `BridgeSend`);
- event delivery through mailboxes as a step system, and the mailbox object as steps of it (`Mailbox`);
- the clearing house (`Clearing`).

## How it is built

`BookSpec` states each operation of the book on flat sides in price-time order, on top of one greedy sweep
(`PriceTime.Match`) that both engines and the auction share. The class `OrderBook.Book` keeps what the C++ class
keeps: two price-ordered maps of queues (as lists of their entries in map order), the id index, the parked stops,
the phase, the counters. Each of its methods keeps the nested loops and in-place updates of the source and is
proved equal to the flat operation through the abstraction `Abs()`; `Valid()` says that levels and index lay the
flat book out exactly. The properties are then proved about the flat operations and about runs of them. The
Python engine is treated the same way against the same sweep, so that the agreement of the two engines is a
statement about two functions both classes are proved to compute.

Prices are integer ticks. Quantities are unbounded in the model, except in the accumulating sums, which the objects
take modulo 2^64 as the source does. `Width` states what that makes of each operation and proves that it is the
operation of `BookSpec` while the book's load fits 64 bits; `Runs.SumsFit` shows that it does throughout every run
that asks for less in all. `Feeding` drives the objects through whole runs, with those sums, and says that below that
bound these are the runs the other statements speak of.
The two callbacks of the book are modelled as the trades and reports a method returns.

All inductions are explicit; every lemma carries `{:induction false}`.

## What does not hold as one might expect

- `getIOP` returns 0 for "no price", and a market order that carries price 0 rests at that price before the
  opening. A market sell larger than the buyers then makes 0 the winning price and the auction does nothing
  (`Safety.MarketOrderBlocksAuction`). Exactly when it clears: `Safety.AuctionClearsIff`.
- `modifyOrder` takes the side of the replacement from a field that is always 0, so a modified buy comes back as
  a sell (`OrderLaws.ModifyTurnsBuyIntoSell`), and never matches, so it can cross the book
  (`OrderLaws.ModifyCrossesBook`). Exactly when it keeps the side, and the book uncrossed:
  `OrderLaws.ModifyKeepsSideIff`, `OrderLaws.ModifyStaysClearIff`.
- A trigger pass does not follow up on the prices it makes (`Cascade.TriggerDoesNotCascade`). It leaves nothing
  triggerable behind when the stops that stay are deaf to every price around (`Cascade.PassLeavesNone`); exactly
  when, for a pass that converts stops of one side: `Cascade.OneSideLeavesNoneIff`, and in closed form for one stop
  of any kind or any number of market stops: `Cascade.OneStopLeavesNoneIff`, `Cascade.MarketStopsLeaveNoneIff`.
- The completion test never asks for the root, so a leaf that arrives first completes alone, as in the repository's
  example (`Iaca.LeafFirstCompletesAlone`). Exactly when a tree completes once and whole: `Iaca.CompletesOnceIff`.
- The developer's guide states a sum rule instead of the per-fragment test. The two differ on a line of three whose
  middle fragment is late (`Iaca.GrandchildFoolsSumRule`). Exactly when they agree: `Iaca.SumRuleAgreesIff`; arriving
  parents first is enough (`Iaca.SumRuleAgrees`) but not needed (`Iaca.LeafFirstRulesAgree`).
- A FIX message whose tag ends in the digits 10, or whose value contains `10=`, is cut short. The acceptor sends such
  a message: its answer to a logon repeats the sender id (`FixBuild.LogonEchoCut`). Exactly when a message is received
  whole: `FixBuild.ReceivedWholeIff`.
- Leaving threaded mode with events still in a mailbox lets a later event overtake them
  (`Mailbox.UndrainedSwitchReorders`); `Engine::runFor` itself leaves it without draining
  (src/engine/SimplxShim.hpp:474-480). Exactly when the order is kept: `Mailbox.OrderKeptIff`.
- A request to cancel or modify an order that has traded and is gone is answered with a rejection that states 0
  filled, so the last report on that order is wrong (`MECore.LateCancelMisleads`). Exactly when reports stay right:
  `MECore.ToldRightIff`.
- A trade with only one side mapped to a member changes the total of capital (`Clearing.UnmappedSellerLosesCapital`).
  Exactly when it does not: `Clearing.TradeConservesIff`.

## Model

| member | source | states |
|---|---|---|
| `PriceTime.MatchHit` | src/common/Book.cpp:311-330 | a sweep hits a prefix of the facing side, in order, only at prices the incoming order accepts, and takes no more than each order has |
| `PriceTime.MatchExhausts` | src/common/Book.cpp:347-352 | every order a sweep touches but the last is used up |
| `PriceTime.MatchRest` | src/common/Book.cpp:347-359 | behind the last order touched the side is unchanged; that order keeps its residue, or leaves when it has none |
| `PriceTime.MatchStops` | src/common/Book.cpp:311-315 | quantity is left over only when no acceptable order stands in front any more |
| `PriceTime.MatchAmount` | src/common/Book.cpp:308-361 | on a side in priority order a sweep fills min(quantity, total acceptable quantity) and leaves the rest |
| `PriceTime.MatchAllocates` | src/common/Book.cpp:308-418 | closed form: the order at position k receives min(its quantity, what the acceptable orders ahead of it could not absorb), and nothing if its price is not acceptable |
| `PriceTime.MatchDepletes` | src/common/Book.cpp:308-418 | best first: at every price, the quantity available at that price or better drops by exactly the filled quantity, never below zero |
| `PriceTime.MatchInPriority` | src/common/Book.cpp:347-359 | a sweep keeps the side in strict price-time order with distinct ids |
| `PriceTime.MatchResidues` | src/common/Book.cpp:338-352 | a sweep adds no order and changes nothing of an order but its remaining quantity, downwards |
| `PriceTime.MatchQty` | src/common/Book.cpp:338-339 | what leaves the side is what was filled |
| `PriceTime.MatchTwice` | src/common/Book.cpp:308-361 | two sweeps in a row leave the side that one sweep for both quantities leaves |
| `PriceTime.MatchFilled` | src/common/Book.cpp:308-361 | a sweep for as much as another one found fills leaves every order with the same quantity, and the same side if no order on it is empty |
| `PriceTime.InsertInPriority` | src/common/Book.cpp:497-504 | queueing behind every order at the price or better keeps price-time order |
| `BookSpec.SweepStep` | src/common/Book.cpp:319-353 | one turn of a matching loop: the whole sweep, its trades and its reports are those of the first execution followed by the sweep of what is left |
| `Ladder.PushBackInserts` | src/common/Book.cpp:497-504 | appending to the queue under a price, creating the level if needed, is insertion in price-time order on the flattened side |
| `Ladder.DepthOfLevels` | src/common/Book.cpp:537-558 | the level summaries are those of the flat side grouped by price, best first |
| `OrderBook.Book.constructor` | src/common/Book.hpp:57-73 | a new book is empty, in continuous trading, with both counters at 1 and no last price |
| `OrderBook.Book.SetPhase` | src/common/Book.cpp:12-14 | changes the phase and nothing else |
| `OrderBook.Book.HitAsk` | src/common/Book.cpp:320-352 | one execution of a buy against the best ask: both quantities, the trade, the report, the index and the level |
| `OrderBook.Book.MatchBuy` | src/common/Book.cpp:308-361 | the nested loops over levels and queues refine the sweep of the flattened asks: new book, leftover order, trades and reports in order |
| `OrderBook.Book.HitBid` | src/common/Book.cpp:376-410 | one execution of a sell against the best bid, in continuous trading or at the auction price with two reports |
| `OrderBook.Book.SweepBids` | src/common/Book.cpp:84-133 | the bid loops shared by sells and the auction refine the sweep of the flattened bids at or above a bound |
| `OrderBook.Book.MatchSell` | src/common/Book.cpp:365-418 | as MatchBuy, for the bids |
| `OrderBook.Book.InsertResting` | src/common/Book.cpp:497-504 | the order is queued in price-time order and indexed under its side and price |
| `OrderBook.Book.AddLevel` | src/common/Book.cpp:188-194 | the accumulation over one level is the true sum modulo 2^64 |
| `OrderBook.Book.CanFill` | src/common/Book.cpp:187-206 | the early-breaking availability scan over the levels computes the 64-bit scan of the flat side, price by price |
| `OrderBook.Book.NewOrder` | src/common/Book.cpp:152-243 | refines the flat specification of a new order in every branch (parked, accumulated, rejected, matched, then filled, cancelled or resting), the fill-or-kill check being the 64-bit scan |
| `OrderBook.Book.Finish` | src/common/Book.cpp:221-242 | what becomes of the order after matching, with its final report |
| `OrderBook.Book.SelectStops` | src/common/Book.cpp:251-268 | splits the parked stops into triggered and remaining, both in parking order |
| `OrderBook.Book.TriggerStopOrders` | src/common/Book.cpp:249-290 | refines the pass: the triggered stops leave first, then are submitted one after the other as new orders |
| `OrderBook.Book.CancelStopOrder` | src/common/Book.cpp:294-304 | removes the parked stop with the id and reports it, or changes nothing |
| `OrderBook.Book.CancelOrder` | src/common/Book.cpp:422-465 | refines cancellation: parked stops first, then the index and the level it leads to |
| `OrderBook.Book.EraseBid` | src/common/Book.cpp:433-447 | takes one order out of its bid level, the level with it if it was the last, and its index entry |
| `OrderBook.Book.EraseAsk` | src/common/Book.cpp:448-462 | the same for an ask level |
| `OrderBook.Book.ModifyOrder` | src/common/Book.cpp:469-493 | refines cancel-and-replace as the code does it: the replacement rests without matching, its side looked up at price 0 |
| `OrderBook.Book.Cumulate` | src/common/Book.cpp:36-49 | adds up the quantity of all levels within a bound, modulo 2^64 |
| `OrderBook.Book.CollectPrices` | src/common/Book.cpp:23-28 | collects the keys of the levels into an ascending list without repetition |
| `OrderBook.Book.GetIOP` | src/common/Book.cpp:20-66 | the candidate loop computes the indicative opening price of the flattened book, on 64-bit cumulative sums |
| `OrderBook.Book.UncrossAsk` | src/common/Book.cpp:83-140 | one ask of the auction sweeps the bids at or above the opening price and stays, or leaves, its level |
| `OrderBook.Book.UncrossLevel` | src/common/Book.cpp:79-146 | one ask level of the auction |
| `OrderBook.Book.Uncross` | src/common/Book.cpp:70-148 | the whole auction refines the crossing of the two flat sides at the price getIOP returns, or does nothing when that is 0 |
| `OrderBook.Book.GetLevels` | src/common/Book.cpp:537-550 | the first levels with total quantity (a 64-bit sum) and number of orders |
| `OrderBook.Book.GetBids` | src/common/Book.cpp:552-554 | the best bid levels of the flat book |
| `OrderBook.Book.GetAsks` | src/common/Book.cpp:556-558 | the best ask levels of the flat book |
| `IndexAgreement.IndexIsExact` | src/common/Book.hpp:64-73 | in a valid book the index leads an id to a side and price exactly when one order with the id is queued there, never more than one, and no indexed id is parked |
| `IndexAgreement.QueuesInArrival` | src/common/Book.cpp:497-504 | in a valid book no level is empty, orders are queued under their own price, and ids increase strictly within a queue |
| `Layout.LaidLookup` | src/common/Book.cpp:427-435 | the index finds an id exactly when it rests, and finds it in the level it names |
| `BookSpec.SubmitWellFormed` | src/common/Book.cpp:152-243 | a new order keeps the structural invariant: both sides in price-time order, quantities within bounds, ids distinct, older than the counter, and disjoint from the parked stops |
| `BookSpec.TriggerWellFormed` | src/common/Book.cpp:249-290 | so does a trigger pass |
| `BookSpec.CancelWellFormed` | src/common/Book.cpp:422-465 | so does a cancellation |
| `BookSpec.ModifyWellFormed` | src/common/Book.cpp:469-493 | so does a modification |
| `BookSpec.UncrossWellFormed` | src/common/Book.cpp:70-148 | so does the auction |
| `BookSpec.CrossKeepsBids` | src/common/Book.cpp:84-133 | after the auction the bids are residues of the bids before, in priority order |
| `BookSpec.CrossKeepsAsks` | src/common/Book.cpp:135-146 | and the asks of the asks before |
| `AuctionSpec.CandidatesAreBookPrices` | src/common/Book.cpp:23-28 | the candidate list is ascending and holds exactly the prices of the book |
| `AuctionSpec.ChooseIsBest` | src/common/Book.cpp:30-63 | loop invariant over all candidates: the running best is preferred to every price seen |
| `AuctionSpec.IopChoice` | src/common/Book.cpp:20-66 | the chosen price wins: most volume over every price whatsoever; among book prices tied on volume the least surplus; among those still tied the highest under buy surplus, else the lowest |
| `AuctionSpec.WinnerIsUnique` | src/common/Book.cpp:16-18 | at most one price wins |
| `AuctionSpec.IopIsOptimal` | src/common/Book.cpp:20-66 | a non-zero result is the winning price; the result is 0 exactly when no price can trade or the winning price is itself 0 |
| `AuctionSpec.CrossAtIop` | src/common/Book.cpp:91-104 | every auction execution is at the opening price |
| `AuctionSpec.CrossWilling` | src/common/Book.cpp:79-85 | no order trades in the auction at a price worse than its own limit |
| `AuctionSpec.CrossVolume` | src/common/Book.cpp:70-148 | the auction executes min(buyers at the price or better, sellers at the price or better) |
| `AuctionSpec.CrossDepletesBids` | src/common/Book.cpp:84-133 | at every price the cumulative bids drop by the executed volume |
| `AuctionSpec.CrossDepletesAsks` | src/common/Book.cpp:78-147 | at every price the cumulative asks drop by the executed volume |
| `AuctionSpec.CrossSweepsBids` | src/common/Book.cpp:78-133 | the asks of the auction together consume the bids as one sweep for the executed volume: every order is left with the same quantity, and the side is the same if no order on it is empty |
| `AuctionSpec.CrossSweepsAsks` | src/common/Book.cpp:78-147 | and the asks are left as one sweep for the executed volume leaves them |
| `AuctionSpec.CrossTraded` | src/common/Book.cpp:91-140 | per order id: what it trades in the auction is what it no longer has afterwards |
| `AuctionSpec.CrossLeaves` | src/common/Book.cpp:70-148 | crossing at any price leaves, at every price, the executable volume it did not use |
| `AuctionSpec.UncrossClears` | src/common/Book.cpp:70-148 | after uncrossing at the opening price no price can execute anything, and the executed quantity is the maximum over all prices |
| `AuctionSpec.CrossedCanTrade` | src/common/Book.cpp:70-148 | with positive quantities, bids strictly below asks is the same as no executable volume at any price |
| `Safety.OpeningAuction` | src/common/Book.cpp:70-148 | the auction as one statement over trades and books: one price, exactly the volume executable there, no price could execute more, nothing executable remains; or no price and no change |
| `Safety.AuctionAllocates` | src/common/Book.cpp:70-148 | price-time priority of the auction: each order of either side trades min(its quantity, what the willing orders ahead of it leave of the executable volume), nothing if it is not willing; the sides left are those of one sweep each |
| `Safety.AuctionClearsIff` | src/common/Book.cpp:65-72 | the auction leaves nothing executable if and only if it found a price or nothing was executable |
| `Safety.AuctionUncrosses` | src/common/Book.hpp:31-32 | an auction of positive orders that finds a price leaves every bid below every ask |
| `Safety.PositiveClears` | src/common/Book.cpp:65 | with positive prices and quantities it always finds one |
| `Safety.MarketOrderBlocksAuction` | src/common/Book.cpp:70-72 | counterexample run: set PreOpen, enter a limit buy, enter a larger market sell that carries price 0; 0 wins, which reads as none, uncross does nothing, and the book stays crossed |
| `Outcomes.SweepTold` | src/common/Book.cpp:308-418 | the k-th trade of a sweep: with the k-th order of the facing side, at its price, for its share; buyer and seller fields are those of the two orders; the resting order is told, with what is left of it |
| `Outcomes.NewOrderTold` | src/common/Book.cpp:152-418 | everything a new order emits, in its own fields: the trades and the reports on the orders it hits, then one report on itself that says how it ended; nothing else of the request is changed |
| `Outcomes.NewOrderEnds` | src/common/Book.cpp:152-243 | how it ends, by kind, phase, time in force and the quantity it accepts: parked, accumulated, rejected (closed, or fill-or-kill short), filled, cancelled or resting; and what becomes of both sides, the counters and the last price |
| `Outcomes.CancelTold` | src/common/Book.cpp:294-465 | cancelling an order that rests or is parked reports it cancelled under its ids, with what it has traded |
| `Outcomes.ModifyTold` | src/common/Book.cpp:469-493 | modifying one reports a new order under the next id, a Day limit order with the new price and quantity that keeps only the client's id |
| `AuctionOutcomes.CrossStands` | src/common/Book.cpp:83-119 | every auction execution is between a bid and an ask of the book before, as the executions before it left them |
| `AuctionOutcomes.AuctionTold` | src/common/Book.cpp:91-119 | the k-th auction trade has the next number, the opening price, the buyer fields of a bid and the seller fields of an ask; reports 2k and 2k+1 tell those two, with what is left of each after its trades so far |
| `RunOutcomes.EveryRunTold` | src/common/Book.hpp:15-37 | in every run the trades are numbered 1, 2, 3 and so on, and every report that states a trade is on one of its two orders with its price and quantity |
| `Accounts.PostFill` | src/common/Book.cpp:338-345 | one execution posts the same quantity to both orders and reports what the reported order has filled |
| `Accounts.SubmitAccounts` | src/common/Book.cpp:152-243 | across a new order: every resting order has traded what it misses, and the last report of every id states what the id has traded |
| `Accounts.TriggerAccounts` | src/common/Book.cpp:249-290 | the same across a trigger pass |
| `Accounts.CancelAccounts` | src/common/Book.cpp:422-465 | the same across a cancellation |
| `Accounts.ModifyAccounts` | src/common/Book.cpp:469-493 | the same across a modification |
| `Accounts.UncrossAccounts` | src/common/Book.cpp:106-119 | the same across the auction |
| `Ledger.SubmitConserves` | src/common/Book.cpp:152-243 | quantity in the book plus twice the traded plus what the order lost by cancellation, expiry or rejection equals the book before plus the order |
| `Ledger.TriggerConserves` | src/common/Book.cpp:249-290 | the quantity of a stop is counted once across its conversion |
| `Ledger.CancelConserves` | src/common/Book.cpp:422-465 | a cancellation takes out exactly the remaining quantity of its order |
| `Ledger.ModifyConserves` | src/common/Book.cpp:469-493 | a modification takes out the old remaining quantity and puts in the new quantity |
| `Ledger.UncrossConserves` | src/common/Book.cpp:70-148 | the auction takes twice the traded quantity out of the book |
| `Runs.EveryRun` | src/common/Book.hpp:15-37 | after every run of all operations from the empty book: the structural invariant, traded quantity equals what each resting order misses, the last report of every id is right, and submitted equals twice traded plus in the book plus gone |
| `Width.ScanFits` | src/common/Book.cpp:187-206 | while the sum of the facing side fits 64 bits, the scan answers exactly whether the acceptable quantity reaches the order's quantity |
| `Width.Submit64Fits` | src/common/Book.cpp:152-243 | while the book's load fits 64 bits, a new order in the code is the one of the specification |
| `Width.Trigger64Fits` | src/common/Book.cpp:249-290 | and so is a trigger pass, whose conversions keep the load |
| `Width.Iop64Fits` | src/common/Book.cpp:35-53 | and so is the opening price |
| `Width.Uncross64Fits` | src/common/Book.cpp:70-148 | and so is the auction |
| `Runs.SumsFit` | src/common/Book.cpp:35-53 | while the total quantity asked for stays below 2^64, what the book holds plus the next order does, so no accumulation wraps at any command |
| `Feeding.Obey` | src/common/Book.hpp:19-37 | one command on the book object is one step of the run, with the 64-bit sums of the code |
| `Feeding.Run64Fits` | src/common/Book.cpp:35-53 | while what the book holds and is asked for fits 64 bits, the run with the sums of the code is the run of the specification |
| `Feeding.FeedBook` | src/common/Book.hpp:15-37 | a new book fed with any run of commands ends in the state, trades and reports of the run, with 64-bit sums; without them when less than 2^64 is asked for in all |
| `Feeding.FeedEngine` | dashboard/app.py:63-126 | a new dashboard engine fed with orders and cancellations ends in the state of its run |
| `Feeding.FeedBoth` | dashboard/app.py:69-248 | both objects fed with the same orders and cancellations, asking for less than 2^64 in all, hold the same book and have made the same trades |
| `Safety.ContinuousNeverCrossed` | src/common/Book.hpp:31-32 | in every run without modifications that enters continuous trading only uncrossed or right after a clearing auction, the best bid is strictly below the best ask whenever the phase is continuous |
| `Safety.RegularNeverCrossed` | src/common/Book.hpp:31-32 | so, without speaking of auctions clearing: in every run of orders with quantities and prices, without modifications, that enters continuous trading only uncrossed or right after an auction, the best bid is strictly below the best ask at every moment of continuous trading |
| `Safety.RunSafe` | src/common/Book.cpp:152-290 | the invariant behind it, kept by every command of such a run |
| `Safety.StepClear` | src/common/Book.cpp:152-290 | one command of continuous trading, modification apart, keeps an uncrossed book uncrossed |
| `Safety.StepPositive` | src/common/Book.cpp:152-290 | orders with quantity and price keep the book positive, and no command but setPhase changes the phase |
| `OrderLaws.FillOrKill` | src/common/Book.cpp:187-213 | a fill-or-kill order fills completely when the acceptable quantity is there; otherwise it leaves only its id and its rejection |
| `OrderLaws.TriggerPass` | src/common/Book.cpp:249-290 | a pass takes exactly the buy stops with the price at or above their stop price and the sell stops with it at or below; the others stay in parking order, and each one taken was submitted once, in parking order, with its side, quantity, limit, symbol, client id and session, under a fresh id |
| `OrderLaws.StopsWaitForTheirSide` | src/common/Book.cpp:245-260 | a run with one parked stop: a sell stop stays above its stop price and is submitted below it, a buy stop the other way round |
| `Cascade.TriggerDoesNotCascade` | src/common/Book.cpp:268-289 | the pass does not follow up: a conversion that trades at the stop price of another stop leaves that one parked though now triggerable |
| `Cascade.PassLeavesNone` | src/common/Book.cpp:249-290 | however many stops a pass converts: no parked stop is triggerable at the new last trade price if every stop that stays is triggered neither by the old last price, nor by any price in the book, nor by the limit of a converted stop |
| `Cascade.ReachedIff` | src/common/Book.cpp:308-418 | a sweep reaches the order at position k exactly when its price is acceptable and the acceptable quantity ahead of it falls short of the order's |
| `Cascade.DisturbedIff` | src/common/Book.cpp:152-243 | after a new order a given stop is not triggerable at the last trade price exactly when the price of the last order reached (or the old last price, if none is) does not trigger it |
| `Cascade.OneStopLeavesNoneIff` | src/common/Book.cpp:249-290 | for a pass that converts one stop of any kind: it leaves no stop triggerable at the new last trade price if and only if it disturbs none of those that stay, in terms of the book before the pass |
| `OrderLaws.CancelIsExact` | src/common/Book.cpp:422-465 | cancellation succeeds exactly for ids resting or parked and removes exactly that order |
| `OrderLaws.ModifyKeepsSideIff` | src/common/Book.cpp:469-493 | a modification replaces exactly the order with the id by one new order, which has its side exactly when it was a buy and some bid rests at price 0, or a sell and none does |
| `OrderLaws.ModifyTurnsBuyIntoSell` | src/common/Book.cpp:478 | so in a book of positive prices a modified buy comes back as a sell |
| `OrderLaws.ModifyStaysClearIff` | src/common/Book.cpp:475-492 | a modification leaves an uncrossed book uncrossed exactly when nothing the replacement accepts is facing it, since it never matches |
| `OrderLaws.ModifyCrossesBook` | src/common/Book.cpp:475-492 | counterexample run from the empty book: two buys rest, the first is modified to a price the second pays, and the book stays crossed in continuous trading without a trade |
| `Cascade.SweepsAddUp` | src/common/Book.cpp:308-418 | two sweeps of one side in a row end at the price of one sweep for both quantities |
| `Cascade.MarketStopsLeaveNoneIff` | src/common/Book.cpp:249-290 | for a pass that converts any number of market stops of one side in a trading phase: it leaves none triggerable if and only if one sweep for their total spares every stop that stays |
| `Cascade.OneSideLeavesNoneIff` | src/common/Book.cpp:249-290 | for a pass that converts any number of stops of one side, market and limit, of any time in force, and for any pass outside continuous trading: it leaves none triggerable if and only if the price at which their sweeps of the facing side end triggers none that stays |
| `MECore.MECoreActor.constructor` | src/actors/MECoreActor.cpp:15-22 | a fresh book and empty pipes |
| `MECore.MECoreActor.Push` | src/actors/MECoreActor.cpp:38-45 | trades go to market data and, if wired, the clearing house; reports go to the session of the incoming event |
| `MECore.MECoreActor.Place` | src/actors/MECoreActor.cpp:84-94 | copies the levels into the ten places of an update, price and quantity each; the places behind them stay zero |
| `MECore.MECoreActor.PublishBookUpdate` | src/actors/MECoreActor.cpp:80-96 | pushes the symbol, the ten best levels of each side by price and quantity, and how many there are |
| `MECore.MECoreActor.OnNewOrder` | src/actors/MECoreActor.cpp:24-54 | new order, one trigger pass if stops are parked and there is a last price, then the book update: the whole new state and everything pushed, in order |
| `MECore.MECoreActor.OnCancelOrder` | src/actors/MECoreActor.cpp:56-66 | cancellation with its report and update, or a rejection that reports 0 filled and leaves the book alone |
| `MECore.MECoreActor.OnModifyOrder` | src/actors/MECoreActor.cpp:68-78 | modification with its report and update, or a rejection |
| `MECore.EventIsRun` | src/actors/MECoreActor.cpp:24-54 | one new-order event is a run of book commands, so what holds of every run holds after every event |
| `MECore.Handle64Fits` | src/actors/MECoreActor.cpp:24-54 | while load and quantity fit 64 bits, the handler's 64-bit sums make no difference |
| `MECore.DeskStepAccount` | src/actors/MECoreActor.cpp:56-78 | an event of the actor keeps the last report on every issued id right exactly when it is not a late request: a cancel or modify of an order that has traded and is gone, answered with 0 filled |
| `MECore.ToldRightIff` | src/actors/MECoreActor.cpp:24-78 | for every run of the actor's events, what it told stays right throughout if and only if no request came late |
| `MECore.ToldRightFromStart` | src/actors/MECoreActor.cpp:24-78 | the same from a new book |
| `MECore.LateCancelMisleads` | src/actors/MECoreActor.cpp:56-66 | failing input: from a new book a sell rests, a buy takes it, the request to cancel it comes late; all of it has traded and the last report on it says 0 filled |
| `MECore.DeskRun64Fits` | src/actors/MECoreActor.cpp:24-78 | while what the book holds and is asked for fits 64 bits, the actor's run with the sums of the code is the run these statements speak of |
| `Feeding.Serve` | src/actors/MECoreActor.cpp:24-78 | one event on the actor object is one step of the desk: book, reports told, trades published and cleared |
| `Feeding.FeedDesk` | src/actors/MECoreActor.cpp:15-96 | a new actor fed with any run of events stands where the run ends, with 64-bit sums; without them, where `MECore.ToldRightIff` speaks of, when less than 2^64 is asked for in all |
| `MECore.NoStopLeftBehind` | src/actors/MECoreActor.cpp:47-51 | after a new-order event no parked stop is triggerable at the price the pass used |
| `EventTerms.EventNeverRests` | src/actors/MECoreActor.cpp:24-54 | in continuous trading a market, immediate-or-cancel or fill-or-kill event leaves nothing resting under its id, whatever the trigger pass does; a fill-or-kill event trades everything or nothing |
| `EventTerms.EventRests` | src/actors/MECoreActor.cpp:24-54 | a limit event that faces nothing it accepts rests with exactly the side, price, quantity, time in force, ids, symbol and session of the event |
| `EventTerms.EventParks` | src/actors/MECoreActor.cpp:24-54 | a stop event the last price has not reached, or without a last price, is parked with exactly the terms of the event |
| `EventTerms.AddressedAt` | src/actors/MECoreActor.cpp:43-45 | the reports go out one by one, each to the session of the event |
| `EventTerms.UnknownRejected` | src/actors/MECoreActor.cpp:56-78 | a request to cancel or modify what is not there is rejected under the ids it names and changes nothing |
| `EventTerms.KnownCancelled` | src/actors/MECoreActor.cpp:56-60 | a request to cancel what is there takes it out and is answered with its report |
| `EventTerms.KnownModified` | src/actors/MECoreActor.cpp:68-72 | a request to modify it is answered with the new order in its place |
| `EventTerms.DepthSummarises` | src/common/Book.cpp:537-558 | the level summaries are those of the best prices of a side, best first and none left out: the quantity and the number of orders at each |
| `EventTerms.UpdateShows` | src/actors/MECoreActor.cpp:80-96 | a book update shows the best ten bids and asks, each on its side, with the quantity there, and zeros behind |
| `FlatEngine.MatchingEngine.Available` | dashboard/app.py:155-163 | adds up the acceptable quantity of the whole opposite list |
| `FlatEngine.MatchingEngine.MarkOrder` | dashboard/app.py:195-211 | updates the first record with the id and nothing else |
| `FlatEngine.MatchingEngine.Turn` | dashboard/app.py:169-225 | one turn of the loop: fill against the first entry, update entry, list, records and trades |
| `FlatEngine.MatchingEngine.Match` | dashboard/app.py:145-227 | the loop refines the greedy sweep of the list, after the fill-or-kill check |
| `FlatEngine.MatchingEngine.InsertResting` | dashboard/app.py:229-239 | append, then stable sort, on the side of the order |
| `FlatEngine.MatchingEngine.SubmitOrder` | dashboard/app.py:69-114 | the whole new state, the returned order and the trades of a submission |
| `FlatEngine.MatchingEngine.RemoveFromBook` | dashboard/app.py:241-248 | drops the first entry with the id from the list of the side |
| `FlatEngine.MatchingEngine.CancelOrder` | dashboard/app.py:116-126 | cancels the first live record with the id, or finds none |
| `FlatEngine.SortIsStable` | dashboard/app.py:236-239 | the sort gives a sorted permutation that keeps the order of equal prices |
| `FlatEngine.SweptStep` | dashboard/app.py:169-225 | one turn of the loop followed by the sweep of what is left is the sweep |
| `FlatRecords.RecordsAreRight` | dashboard/app.py:193-212 | after every stream: a live record states the price and remaining quantity of its entry; New means untouched, partially filled that part is left, filled that nothing is; a record that is not live has no entry |
| `Twin.MatchMirrors` | dashboard/app.py:168-227 | matching on the flat list and on the levelled book hits the same orders for the same quantities |
| `Twin.QueueMirrors` | dashboard/app.py:229-239 | append-and-sort is insertion in price-time order |
| `Twin.DropMirrors` | dashboard/app.py:241-248 | dropping by id agrees as well |
| `Twin.TwinSubmit` | dashboard/app.py:69-114 | the same order in both engines: same trades, final status, remaining quantity and books |
| `Twin.LiveIffResting` | dashboard/app.py:116-121 | a record is live exactly when its entry is in the list |
| `Twin.TwinCancel` | dashboard/app.py:116-126 | the same cancellation in both engines |
| `Twin.EnginesAgree` | dashboard/app.py:69-248 | for every stream of limit and market orders (Day, GTC, IOC, FOK) and cancellations, both engines produce the same trades in order and the same books, ids shifted by 999 |
| `Iaca.CheckComplete` | src/iaca/IacaAggregator.cpp:6-17 | true exactly when there is a fragment and each has as many children in the collection as it announced |
| `Iaca.IacaAggregator.constructor` | src/iaca/IacaAggregator.cpp:19-28 | nothing pending, nothing completed |
| `Iaca.IacaAggregator.RegisterHandler` | src/iaca/IacaAggregator.cpp:26-28 | handlers are kept in order of registration |
| `Iaca.IacaAggregator.AddFragment` | src/iaca/IacaAggregator.cpp:19-24 | the fragment joins its chain; if that completes it, the chain goes to the accepting handlers and is forgotten |
| `Iaca.IacaAggregator.TryComplete` | src/iaca/IacaAggregator.cpp:30-47 | a complete chain is counted, handed to every accepting handler in order, and erased; otherwise nothing changes |
| `Iaca.GivenInOrder` | src/iaca/IacaAggregator.cpp:36-42 | a chain goes to exactly the handlers that accept it, each once, in the order of registration |
| `Iaca.CompleteIffClosed` | src/iaca/IacaAggregator.cpp:6-17 | a part of a tree is complete exactly when none of the missing fragments is a child of it |
| `Iaca.RootedIncomplete` | src/iaca/IacaAggregator.cpp:6-17 | once the root is there, only the whole tree is complete |
| `Iaca.RootFirstCompletesOnce` | src/iaca/IacaAggregator.cpp:6-47 | every tree delivered root first, then in any order, interleaved with other chains, completes exactly once, on its last fragment, whole |
| `Iaca.CompletesOnceIff` | src/iaca/IacaAggregator.cpp:6-47 | in whatever order a tree arrives, it completes once and whole exactly when up to its root no beginning of the arrivals is already closed |
| `Iaca.Feed` | src/iaca/IacaAggregator.cpp:19-47 | the aggregator fed with a stream ends in the state these statements speak of, its handlers called for exactly the chains completed |
| `Iaca.HandedOnOnce` | src/iaca/IacaAggregator.cpp:30-47 | for every tree delivered root first, over the whole stream each accepting handler is called once with the whole tree, none with anything else of that chain, and none before its last fragment |
| `Iaca.LeafFirstCompletesAlone` | examples/simple_match.cpp:79-91 | the example's order, acknowledgement first: the leaf is handed on alone and the root stays pending |
| `Iaca.LinksCounted` | docs/developers-guide.md:617-627 | double counting: every fragment is the child of exactly one of the fragments, or an orphan |
| `Iaca.RulesCompared` | docs/developers-guide.md:617-627 | for any part of a tree in any order: the code's test asks that no child is missing, the documented sum rule that there is one orphan more than there are missing children |
| `Iaca.SumRuleAgreesIff` | docs/developers-guide.md:617-627 | the two rules agree on a part if and only if nothing missing goes together with exactly that number of orphans |
| `Iaca.SumRuleAgrees` | docs/developers-guide.md:617-627 | so they agree at every step while a tree arrives parents first |
| `Iaca.LeafFirstRulesAgree` | examples/simple_match.cpp:79-91 | parents first is not needed: they agree at both steps of the example's order as well |
| `Iaca.GrandchildFoolsSumRule` | docs/developers-guide.md:617-627 | where they disagree: a line of three whose middle fragment is late satisfies the sum rule and not the code's test |
| `Fix.ParseTags` | src/actors/FIXAcceptorActor.cpp:196-211 | the inner loop computes the tag map of one raw message |
| `Fix.ParseFIXMessages` | src/actors/FIXAcceptorActor.cpp:183-217 | the outer loop cuts off every complete message and returns their tag maps and the rest |
| `Fix.FramesHaveTags` | src/actors/FIXAcceptorActor.cpp:213 | a complete message always has a tag, so none is dropped |
| `Fix.FramesChunk` | src/actors/FIXAcceptorActor.cpp:139-146 | framing a prefix, then the leftover with more data, is framing everything at once |
| `Fix.RestIsIncomplete` | src/actors/FIXAcceptorActor.cpp:187-192 | what is left over contains no complete message |
| `Fix.Receiver.OnChunk` | src/actors/FIXAcceptorActor.cpp:139-171 | after each chunk, what has been handled is what one parse of the whole stream so far would hand over, up to and including the first logout |
| `Fix.Receiver.Handle` | src/actors/FIXAcceptorActor.cpp:148-170 | messages are handled in order until a logout ends the loop |
| `Fix.SessionEnds` | src/actors/FIXAcceptorActor.cpp:148-170 | without a message whose tag 35 is 5 everything framed is handled and the session stays open; otherwise it ends with the first one, which is the last handled |
| `Fix.ClientRecvLoop` | src/actors/FIXAcceptorActor.cpp:127-171 | however the stream is cut into chunks, the same messages are handled and the same leftover kept |
| `Fix.BridgeFrames` | dashboard/app.py:489-495 | the dashboard's loop frames a stream in the same way |
| `FixBuild.FIXSession.constructor` | src/actors/FIXAcceptorActor.cpp:298 | a session starts at sequence number 1 |
| `FixBuild.FIXSession.SendFIX` | src/actors/FIXAcceptorActor.cpp:292-335 | what is sent is the message over the standard fields and the caller's; the sequence number moves by one |
| `FixBuild.AtoiDec` | src/actors/FIXAcceptorActor.cpp:206 | the parser's number reading undoes decimal printing |
| `FixBuild.RoundTrip` | src/actors/FIXAcceptorActor.cpp:183-335 | a message with plain fields is cut off exactly, whatever follows it, and its fields are read back, no more and no less |
| `FixBuild.FramedWhole` | src/actors/FIXAcceptorActor.cpp:187-194 | a message with plain fields is cut off exactly, whatever follows it in the stream |
| `FixBuild.ReadBack` | src/actors/FIXAcceptorActor.cpp:196-211 | the tag map of a message is that of its fields, a repeated tag keeping its last value |
| `FixBuild.SentReadBack` | src/actors/FIXAcceptorActor.cpp:292-335 | what is sent, read back: begin string, type, EUNEX as sender, the client as target, number, time, and the caller's fields |
| `FixBuild.LogoutEndsSession` | src/actors/FIXAcceptorActor.cpp:156-170 | a session of logon, heartbeat, order, logout, order handles the first four and not the fifth |
| `FixBuild.ReceivedWholeIff` | src/actors/FIXAcceptorActor.cpp:188-194 | for values without delimiters: a message is received as one message exactly when no tag ends in the digits 10 and no value contains `10=` |
| `FixBuild.FirstNotPlain` | src/actors/FIXAcceptorActor.cpp:188-194 | behind plain fields, the first field that is not plain ends the frame |
| `FixBuild.LogonEchoCut` | src/actors/FIXAcceptorActor.cpp:226-236 | failing input: a logon whose sender id is `A10=B` is received as it is, and the acceptor's answer is cut off behind the id it repeats, before sending time, heartbeat and checksum |
| `FixBuild.StreamRoundTrip` | src/actors/FIXAcceptorActor.cpp:183-217 | messages sent one after the other are received one by one with nothing left |
| `FixBuild.CountsMeetStandard` | src/actors/FIXAcceptorActor.cpp:318-332 | BodyLength(9) and CheckSum(10) are the counts of the FIX 4.4 Volume 2 Standard Message Header and Standard Message Trailer |
| `BridgeSend.Bridge.SendFix` | dashboard/app.py:455-473 | the dashboard's builder sends the same message form over its own fields, 8, 9 and 10 apart |
| `BridgeSend.BridgeRoundTrip` | dashboard/app.py:455-473 | its fields, sequence number and time are read back by the acceptor's parser |
| `Mailbox.NothingLost` | src/engine/SimplxShim.hpp:70-107 | in every interleaving, shutdown and mode changes included, every event pushed is delivered once, in hand, or queued |
| `Mailbox.MailboxIsFifo` | src/engine/SimplxShim.hpp:70-102 | in every interleaving what was enqueued is what was executed, then the batch in hand, then the queue, in order |
| `Mailbox.OrderKeptIff` | src/engine/SimplxShim.hpp:197-245 | in every interleaving, mode changes included: at the end each core's events stand in the order it pushed them if and only if none was ever delivered inline past one of its own sender |
| `Mailbox.DrainedMeansDelivered` | src/engine/SimplxShim.hpp:488-497 | from an idle core, once drained: exactly the pushed events have arrived, once each, and in each core's order if and only if none was overtaken |
| `Mailbox.OvertakingSwaps` | src/engine/SimplxShim.hpp:219-238 | an inline delivery past an event of the same sender still queued or in hand swaps the two for good |
| `Mailbox.DrainingKeepsOrder` | src/engine/SimplxShim.hpp:439-480 | if threaded mode is only left with an empty mailbox, nothing is ever overtaken |
| `Mailbox.OwnDeliveredAtOnce` | src/engine/SimplxShim.hpp:219-238 | in every interleaving what a core pushes to itself is delivered at once and in order, never queued |
| `Mailbox.SynchronousDelivers` | src/engine/SimplxShim.hpp:231-234 | until threaded mode is entered everything is delivered at once, in the order of pushing |
| `Mailbox.CrossCoreWaits` | src/engine/SimplxShim.hpp:219-227 | in threaded mode what another core pushes is only queued until the owner's next turn delivers it |
| `Mailbox.UndrainedSwitchReorders` | src/engine/SimplxShim.hpp:474-487 | a run from an idle core that loses the order: push, shut down, leave threaded mode undrained, push, drain |
| `Mailbox.DrainRun` | src/engine/SimplxShim.hpp:78-85 | one drain as steps: from any state with an empty batch, what was queued is delivered in order and what other cores push meanwhile is queued |
| `Mailbox.TurnRun` | src/engine/SimplxShim.hpp:87-99 | one turn of the owner as steps: wake if there was nothing to do, then give up or drain |
| `Mailbox.TaskBox.constructor` | src/engine/SimplxShim.hpp:66-68 | an empty, open mailbox, as the idle state of the step system shows it |
| `Mailbox.TaskBox.Enqueue` | src/engine/SimplxShim.hpp:70-76 | the task joins the end of the queue: the step of a push across cores |
| `Mailbox.TaskBox.DrainAll` | src/engine/SimplxShim.hpp:78-85 | everything queued at the start is run in order, whatever other cores enqueue meanwhile stays queued in order; the steps of one drain |
| `Mailbox.TaskBox.WaitAndDrain` | src/engine/SimplxShim.hpp:87-99 | waits only when open and empty, whatever wakes it; gives up exactly when shut down with nothing left, else drains; the steps of one turn |
| `Mailbox.TaskBox.Close` | src/engine/SimplxShim.hpp:101-107 | marks the mailbox shut down: the step of a shutdown |
| `Mailbox.RunFor` | src/engine/SimplxShim.hpp:448-455 | the owner's loop: turn by turn, whatever other cores do, the mailbox ends in the state of the run of all turns, and what it has run followed by what it holds is what was enqueued, in order |
| `Clearing.ClearingHouse.constructor` | src/actors/ClearingHouseActor.cpp:12-25 | ten members with the initial capital and nothing else, no session mapped |
| `Clearing.ClearingHouse.MapSession` | src/actors/ClearingHouseActor.cpp:27-30 | maps, or remaps, a session |
| `Clearing.ClearingHouse.OnTrade` | src/actors/ClearingHouseActor.cpp:32-46 | posts the purchase, then the sale, of the sides whose session is mapped to a member |
| `Clearing.ClearingHouse.ProcessTradeSide` | src/actors/ClearingHouseActor.cpp:48-87 | posts one side: capital, trade count, holding, number of symbols; a position sold to zero is erased |
| `Clearing.AccountIsClosedForm` | src/actors/ClearingHouseActor.cpp:48-87 | each member's capital, trade count and positions are the closed form over its own trade sides, an erased holding counting as zero |
| `Clearing.TotalsAre` | src/actors/ClearingHouseActor.cpp:32-87 | the totals of capital and positions move by exactly the net of the posted sides |
| `Clearing.TradeConservesIff` | src/actors/ClearingHouseActor.cpp:32-46 | a trade keeps the total of capital exactly when both sides or neither lead to members, or nothing is paid; likewise for positions |
| `Clearing.RunConserves` | src/actors/ClearingHouseActor.cpp:27-87 | over every run of such trades, sessions being remapped in between, the total of capital and, per symbol, of signed positions never change |
| `Clearing.UnmappedSellerLosesCapital` | src/actors/ClearingHouseActor.cpp:27-46 | failing input: from the start one session is mapped and buys from one that is not; the total of capital falls by exactly what it paid |
| `Clearing.SoldToZeroErased` | src/actors/ClearingHouseActor.cpp:27-87 | a purchase and its reversal: the holding bought and sold to zero is erased, the one sold and bought back to zero stays; capitals, counts and symbols of both members |
| `Clearing.Feed` | src/actors/ClearingHouseActor.cpp:27-46 | feeding the actor a run of events gives the state these statements speak of |

## Left out

- Wall-clock fields (`entryTime`, `matchTime`, the dashboard's timestamps): dropped; the FIX time field is a parameter.
- Sockets, threads, HTTP routes, databases, the message bus, process management: I/O and foreign libraries.
- Prices as floating point in the dashboard and in the clearing house: ticks and exact products instead, so no rounding is modelled.
- `avgCost` of a holding: floating-point arithmetic with no clean claim, above all for short positions.
- Overflow of 64-bit holdings and of the clearing capital, and wrap-around of the id counters after 2^64 orders or trades.
- `uncross`'s `remainingVolume`: a constant that never changes in the code.
- `removeOrder`, `bestBid`, `bestAsk` and the counts of `Book`: not called by the modelled operations, or one field read.
- Iterators and references into levels while other code runs: callbacks cannot re-enter the book in the model, as no wired actor does it.
- The levels of a map are a list in map order; the balanced tree and the hash table behind the maps are not modelled.
- `amend_order` of the dashboard engine, which resets the remaining quantity without matching and has no counterpart in the book.
- Several symbols in the dashboard engine: the model has the book of one symbol; client ids, sources and snapshots are dropped.
- `next_order_id` being taken outside the lock: the flat engine is modelled sequentially.
- Delivery of a report to the owner of the resting order: reports carry the session of the incoming event, as in the code.
- The bodies of the FIX handlers (logon, new order, cancel, replace): the model stops at the parsed messages, in order, up to a logout.
- `atoi` beyond the range of a machine integer, and non-ASCII text on the dashboard's end, where characters and bytes differ.
- Splitting a received message into fields on the dashboard's end: only its framing and its builder are modelled.
- The payload of fragments, and what the handlers do with a chain they are given.
- The lock and the condition variable of the mailbox: a step of the owner stands for the moment it holds the lock.
- `getLeaderboard`: the members sorted by capital for display.
- Market data snapshots, traders and simulators, recovery and the store: outside the engine's own logic; stale sides, random strategies and a memory-copy codec.
- MECore.ToldRightIff: speaks of the handler without wrap-around; `MECore.DeskRun64Fits` says when the code's run is the same.
- Feeding.FeedBoth: the agreement is stated below 2^64 in all; beyond that the book sums modulo 2^64 and the dashboard does not, so nothing is claimed.
- Cascade.PassLeavesNone: sufficient only; exact conditions are given for passes that convert stops of one side. For a pass that mixes sides, what is left of one conversion can be hit by the next, and the exact condition is the pass itself.
- Cascade.OneStopLeavesNoneIff: one stop only, in terms of the book before the pass; any number of one side is `Cascade.OneSideLeavesNoneIff`.
- Cascade.MarketStopsLeaveNoneIff: market stops of one side that are not fill-or-kill, as one sweep; other kinds of one side are `Cascade.OneSideLeavesNoneIff`.
- Fix.ClientRecvLoop: leaves out what the handlers do, the flag that ends the loop at shutdown, and a session that vanishes meanwhile.
- Clearing.ClearingHouse.ProcessTradeSide: leaves out `avgCost` and the rounding of floating-point capital.
- Mailbox.TaskBox.DrainAll: what other cores enqueue during each task is a parameter; a shutdown during a drain is a step of the step system only.
- Mailbox.TaskBox.WaitAndDrain: what wakes the owner is a parameter; the length of the timeout is not modelled.
