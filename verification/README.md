# Nanobook, modelled and verified

A Dafny model of the parts of nanobook whose correctness is hardest to see by reading one function: the limit
order book with its stop cascade, hierarchical risk parity with simplex projection, and one-pass indicator
panels with average ranks. Verify it with `dafny verify dfyconfig.toml`.

## The order book

The book keeps fast structures in place of simple ones: FIFO queues with tombstones instead of deletion, cached
level totals instead of sums, a cached best price instead of a search, a stop index instead of a scan. The model
follows the code branch by branch and proves what each fast structure stands for.

Two layers describe the same code.

* The **value layer** (`LevelModel`, `SideModel`, `BookModel`, `MatchModel`, `StopModel`, `ExchangeModel`) states each
  operation as a function from state to state. `Live(side)` is the list of resting orders the side stands for, best
  price first and then queue order. All theorems are about this layer.
* The **engine layer** (`Level.dfy`, `Order.dfy`, `PriceLevels.dfy`, `OrderBook.dfy`, `StopBook.dfy`, `Exchange.dfy`) is
  imperative: classes with the source's fields, updated in place, matching as nested loops. Each method proves that the
  object's abstract value afterwards is the value-layer function of its abstract value before, so every theorem
  carries over.

The matching loops are also given as a step machine (`MatchModel.Step`), because they do not always end. An order
remembers the slot it was queued at; popping and compacting shift the queue without correcting the slot. Whatever
cancels through the slot (`cancel`, `modify`, and the self-trade policies `CancelOldest` and `DecrementAndCancel`)
therefore misfires on a stale slot. The model keeps the code as it is and proves exactly when it works:

* `BookModel.CancelWorksIffSafe`: cancelling removes that order and nothing else if and only if the slot holds it.
* `Matching.MatchingEndsIffSafe`: the loops end if and only if every order self-trade prevention would cancel
  remembers slot 0.
* `StaleSlots` and `Dormant`: concrete command sequences that reach the failures, an endless loop among them.

Theorems about whole runs assume, command by command, the condition a caller could check beforehand
(`ExchangeRuns.Guard`). Submissions without an owner need none, whatever the policy. The engine's methods need
less: they are defined wherever the source's own loops end (`Ending`), on well-formed exchanges or not.

The main results, in order of reach:

1. `NaiveRuns.ExchangeIsNaive`: over any guarded run, the engine shows exactly what a naive exchange shows that keeps
   two sorted lists, one greedy walk and a plain set of stops.
2. `ExchangeRuns.ReachableIsGood`, `Conservation.RunConserves`, `ReplayFidelity.ReplayRebuilds`: invariants, ledger balance
   and replay over any run.
3. `Matching.MatchingIsGreedy`, `Liquidity.LiveIsPriceTimeOrder`, `Guarantees.*`, `SelfTrade.*`, `StpEffects.*`,
   `MarketOrders.*`: what one match does.
4. `AveragedTrail.TrailClosedForm`: where any trailing stop stands, in terms of the prices alone.
5. `StopTriggers.CollectExact`, `Ratchet.StopsOnlyTighten`, `LastTrade.NewestTradeIsLast`,
   `ExchangeSafety.CascadeReachesQuiescence`, `CascadeCap.*`: what fires, at which price, and when the bound on a
   cascade shows.
6. `Ending.GuardedEventEnds`: every guarded call returns. `Answers.*`: what it answers.

The engine layer and the naive exchange share small functions: when two owners clash, which side yields, the price a
market order goes in at, the last price of a batch, a trail's offset. Each of them has a theorem that speaks of
orders, trades and prices and not of the function: `StpEffects`, `MarketOrders`, `LastTrade`, `AveragedTrail`, `Answers`.

## Portfolio construction

`Simplex` proves that sort, scan and clip is the Euclidean projection and that no other point is as near.
`Dendrogram`, `Bottleneck` and `Linkage` prove that single-linkage clustering builds a tree over the assets and that a
merge's distance is the bottleneck between its two sides: the smallest threshold at which they are connected.
`Bisection` proves that the work stack computes a recursive split that loses no mass, and joins the whole pipeline;
`BisectionOrder` proves that any other order of taking ranges gives the same weights. `RiskShares` proves what the split
is for: mass times cluster variance is the same on both sides of every split, and that alone fixes the weights.
`UncorrelatedAssets` gives cluster variances in closed form and shows that uncorrelated assets get the inverse-variance
portfolio.

## Indicators and ranks

`Windows` holds the column definitions. `Panels`, `Macd`, `Wilder` and `UltimateOscillator` prove the one-pass loops equal
to them at every cell. `Indicators` proves what the definitions measure: averages and MACD on straight lines, the
proportion behind the relative strength index, the weights and the range of the ultimate oscillator. `Ranks` proves
the tie-group scan; `Welford` the one-pass variance.

## Where the code and its documentation differ

The model follows the code.

* `Order.position_in_level` is documented as the order's index; it is the queue length at insertion and goes stale.
* An order whose status `is_active` need not rest: a partly filled IOC order, or one self-trade prevention stopped,
  keeps the status `PartiallyFilled`. The model defines resting by membership of the live queue; `Dormant.DormantIff`
  states exactly which submissions leave such an order, and `Dormant.DormantCancelIsReachable` that cancelling one
  can take a stranger out of the book.
* The public `modify` neither updates the last price nor fires stops; `apply` of the logged event does both.
  `ReplayFidelity.ReplaysIff` states exactly which events replay; `Counterexamples.CrossingModifyIsReachable` shows
  one that does not.
* Owners are not logged, so a tagged submission does not replay (`ReplayFidelity.TaggedReplaysIff`).
* The fill-or-kill check ignores owners, so with self-trade prevention an accepted order may be cut short
  (`SelfTrade.FokFillsIff`; `Counterexamples.FokCutShort`).
* The bound of 100 rounds on a stop cascade cannot show with fewer than 100 pending stops; with exactly 100 it can
  (`CascadeCap.CapUnseen`, `CascadeCap.CapIsSeen`).
* `project_simplex` says input without a positive entry projects to equal weights. That holds only if all entries are
  equal (`Simplex.EqualWeightsProjectIff`; `Simplex.DegenerateInput`).

## Model

| member | source | states |
|---|---|---|
| LevelModel.FrontIsFirstLive | src/level.rs:80-91 | the front query answers the first live id, skips tombstones without losing anyone and keeps the tombstone count exact |
| LevelModel.TombstoneRefinesRemove | src/level.rs:124-149 | marking slot `index` and deleting by id answer every later mix of front, push, pop and compact alike, with equal totals and counts, when the slot holds the id; they leave the same live queue if and only if it does |
| LevelModel.SameLevelRun | src/level.rs:80-158 | two levels with the same live queue and total cannot be told apart by any sequence of queries and updates |
| SideModel.InsertLive | src/price_levels.rs:110-116 | inserting an order puts it in the side's list behind better and equal prices and before worse ones |
| SideModel.NothingAboveBest | src/price_levels.rs:218-241 | the cached best price is the extreme one: no live order lies before its level |
| BookModel.AddOrderIsInsertion | src/book.rs:219-237 | adding an order keeps the book well formed, inserts it by priority on its side and leaves the other side alone |
| BookModel.QueuedIsOpen | src/order.rs:38-40 | whoever is in a live queue is open, at that side and price, with something left |
| Dormant.DormantByAnswer | src/exchange.rs:302-339 | a submission leaves an order that is active but rests nowhere exactly when its answer reports both something filled and something cancelled |
| Dormant.GreedyFillsIff | src/matching.rs:169-230 | the walk trades something exactly when an order of somebody else is met before an own order makes the taker yield |
| Dormant.DormantIff | src/exchange.rs:256-350 | before the call: such an order is left exactly when the taker trades first and then yields, or may not rest and finds too little from others |
| Dormant.PlainDormantIff | src/exchange.rs:328-339 | without self-trade prevention only an IOC order that finds some but not all it asks for is left active and not resting |
| Dormant.DormantCancelIsReachable | src/book.rs:243-262 | three ordinary submissions reach a well-formed exchange where cancelling such an order takes a stranger out of the book |
| BookModel.CancelWorksIffSafe | src/book.rs:243-262 | a cancel keeps the book well formed and removes that order and nobody else if and only if its remembered slot still holds it (or, for an order that is not queued, holds nobody) |
| BookModel.SafeCancelWorks | src/price_levels.rs:119-126 | with a right slot the cancelled order leaves its list, everyone else stays in place and no price level appears |
| SideRefinement.MarkSlotRefinesRemove | src/price_levels.rs:119-149 | tombstoning a slot leaves the same prices, best price and levels as deletion by id, and the same live orders on any record, if and only if the slot holds the id |
| BookModel.StaleSlotBreaksBook | src/book.rs:253 | cancelling a queued order through a stale slot always leaves an ill-formed book |
| Matching.MatchingEndsIffSafe | src/matching.rs:102-249 | under all four self-trade policies the nested loops end if and only if every resting order they would cancel remembers slot 0 |
| Matching.MatchingIsGreedy | src/matching.rs:102-249 | trades, books and remainder are those of one greedy walk over the opposing orders sorted by price and then age |
| Liquidity.LiveIsPriceTimeOrder | src/price_levels.rs:177-185 | the order of the walk is strict price-time priority and lists exactly the queued orders |
| Liquidity.TotalIsLive | src/price_levels.rs:188-190 | the cached totals of a side add up to what its live orders have left |
| Liquidity.AvailableIsCrossing | src/price_levels.rs:196-213 | the liquidity query over cached totals is the sum of the crossing remainders |
| Liquidity.GreedyTradesAllItCan | src/matching.rs:141-249 | without a self-trade the walk trades exactly the smaller of what is asked and what crosses, and the lists lose exactly that |
| Liquidity.GreedyConserves | src/matching.rs:169-203 | under any policy quantity is traded, still open, or given up when self-trade prevention stopped the walk |
| Liquidity.FillsAreFair | src/matching.rs:206-230 | every fill is at a resting order's own price, inside the limit and never with the taker's own order |
| SelfTrade.GreedyStopsIff | src/matching.rs:169-203 | the walk is stopped exactly when some own order makes the taker yield; otherwise it trades the smaller of what is asked and what others offer |
| SelfTrade.FokFillsIff | src/exchange.rs:265-291 | a fill-or-kill order with an owner that passes the check fills in full exactly when no own order makes it yield and others alone offer enough |
| StpEffects.StrangersFill | src/matching.rs:169-174 | under any policy an accepted submission that finds no order of its own owner on the other side fills exactly the smaller of its quantity and what is available, and that comes off the other side |
| StpEffects.TakerIsTakenOff | src/matching.rs:179-197 | under `CancelNewest`, and under `DecrementAndCancel` for a taker smaller than its own resting order, the strangers in front trade whole, the taker gives up the rest whatever its time in force, and the own order and all behind it stand |
| StpEffects.OwnOrderIsTakenOff | src/matching.rs:185-202 | under `CancelOldest`, and under `DecrementAndCancel` for a resting order no larger than the taker, ties included, the own order comes off and the rest of the taker goes on against what stood behind it |
| Submission.SubmitIsNaive | src/exchange.rs:256-350 | a submission changes the two sorted lists, and answers, as the naive exchange does, for every time in force and policy |
| Counterexamples.FokCutShort | src/exchange.rs:265-291 | under `CancelNewest` a fill-or-kill order accepted against its owner's own orders is cut short |
| Guarantees.FillsExactly | src/exchange.rs:256-350 | with self-trade prevention off or no owner, an accepted submission fills exactly the smaller of its quantity and the available liquidity; the rest rests for GTC and is cancelled otherwise |
| Guarantees.FokIsAllOrNothing | src/exchange.rs:265-291 | fill-or-kill is rejected exactly when crossing liquidity is short, and then lists, orders and trades are untouched; otherwise it is filled in full |
| Guarantees.TradesAreFair | src/matching.rs:206-230 | every trade of a submission is at the passive order's price, inside the limit, and under a policy other than off never joins equal owners |
| Guarantees.StoppedNeverRests | src/exchange.rs:302-314 | an order stopped by self-trade prevention never rests, GTC included |
| MarketOrders.MarketTakesTheSide | src/exchange.rs:191-207 | on prices of 64 bits a market order on either side trades the smaller of its quantity and everything the other side has; the rest is cancelled and its own side does not change |
| MarketOrders.FiredStopTrades | src/exchange.rs:671-698 | a fired stop trades on its own side for its own quantity: without a limit against everything, never resting; with one up to the limit, all or nothing for fill or kill, resting the rest exactly for GTC |
| LastTrade.NewestTradeFires | src/exchange.rs:139-149 | the price a submission hands to the cascade is that of its trade with the largest id |
| LastTrade.NewestTradeIsLast | src/exchange.rs:699-705 | over any guarded run without a crossing modify, cascades included, an exchange with trades on record has the newest one's price as its last price |
| LastTrade.CrossingModifyIsSilent | src/exchange.rs:400-414 | a crossing modify adds trades and leaves the last price and the stops as they were |
| Conservation.SubmitConserves | src/exchange.rs:293-349 | filled, resting and cancelled quantity add up to what was submitted |
| Conservation.RunConserves | src/order.rs:146-208 | over any guarded run that clears no history each order's filled quantity is the sum of the trades naming it, and bought equals sold equals traded |
| ExchangeSafety.SubmitKeeps | src/exchange.rs:256-350 | a submission keeps the exchange well formed and the book uncrossed |
| ExchangeSafety.UntaggedIsSafe | src/matching.rs:169-171 | an order without an owner never meets the stale-slot condition |
| ExchangeSafety.CascadeQuiets | src/exchange.rs:659-709 | after a cascade of at most `n` rounds no stop is triggerable at the last price, or at least `n` pending stops were consumed in all |
| ExchangeSafety.CascadeReachesQuiescence | src/exchange.rs:659-709 | with at most 100 pending stops the cascade ends with none triggerable at the last price; one that does not has consumed at least 100 |
| CascadeCap.RoundConsumes | src/exchange.rs:663-705 | a round that asks for another consumed at least one pending stop, and one that does not leaves none triggerable |
| CascadeCap.CapUnseen | src/exchange.rs:450-450 | with fewer than 100 pending stops no larger bound on the rounds changes the result |
| CascadeCap.OneMoreDiffers | src/stop.rs:247-260 | when all `n` rounds ask for another, a round more changes the exchange: it records one more price |
| CascadeCap.CapSeenIff | src/exchange.rs:659-709 | below the history cap some larger bound gives another result exactly when all 100 rounds ask for another |
| CascadeCap.CapIsSeen | src/exchange.rs:659-709 | a reachable exchange with exactly 100 pending stops where that happens |
| Ending.SubmitEndsIffSafe | src/exchange.rs:256-350 | on a well-formed exchange a submission returns exactly when it is rejected or no self-trade cancel on its way goes through a stale slot |
| Ending.GoodCascadeEnds | src/exchange.rs:659-709 | on a well-formed exchange every submission a cascade makes returns |
| Ending.GuardedEventEnds | src/event.rs:180-290 | every guarded public call, and every guarded replayed event, returns |
| Ending.GuardedReplayEnds | src/event.rs:304-310 | replaying a guarded log returns |
| ExchangeRuns.RunKeeps | src/exchange.rs:128-807 | every guarded command, public, replayed or housekeeping, keeps the exchange invariant |
| ExchangeRuns.ReachableIsGood | src/book.rs:201-206 | every reachable exchange has exact levels, totals, caches and stop indexes, and its best bid is below its best ask |
| NaiveRuns.ExchangeIsNaive | src/exchange.rs:128-807 | every guarded run from the empty exchange whose modifies name queued orders shows the lists, trades, stops, counters and last price of the naive exchange |
| ReplayFidelity.ReplayRebuilds | src/event.rs:295-310 | replaying the log of a guarded run whose modifies do not cross rebuilds book, trades, stops, last price and log |
| ReplayFidelity.TradesIffCrosses | src/exchange.rs:417-445 | a modify trades exactly when, before the call, the order is open, the new quantity is positive and the opposing side offers something within the new price, or all of it for fill or kill |
| ReplayFidelity.ReplaysIff | src/event.rs:217-228 | below the price-history cap an event replays exactly when it is not such a modify |
| Counterexamples.CrossingModifyIsReachable | src/exchange.rs:400-414 | two ordinary submissions reach an exchange where a modify trades and its event replays differently |
| ReplayFidelity.TaggedReplaysIff | src/exchange.rs:159-182 | a tagged submission replays only when it was rejected |
| StopModel.InsertKeeps | src/stop.rs:112-129 | inserting keeps the stop index exact: an id is in the bucket at a price, once, exactly when it is pending there; the new stop is the last of its bucket |
| StopModel.WithdrawKeeps | src/stop.rs:132-157 | cancelling keeps the index exact and the stop is no longer pending |
| StopModel.ClearKeeps | src/stop.rs:373-377 | clearing history keeps the index exact |
| StopTriggers.CollectExact | src/stop.rs:163-225 | collecting marks and returns exactly the pending stops the price reaches, in strict submission order, and changes no other |
| StopTriggers.CollectKeeps | src/stop.rs:163-225 | collecting keeps the index and the list of trailing stops exact |
| Answers.FiresExactly | src/stop.rs:163-225 | a round at a price hands out exactly the pending stops it reaches once the trailing ones have moved: buy stops at or below it, sell stops at or above it |
| Answers.StopAnswers | src/exchange.rs:595-650 | a new stop is answered as triggered exactly when it does not trail and the last trade was at its price or beyond; every other is pending and changes nothing but the stops |
| Answers.CancelAnswersResting | src/exchange.rs:376-390 | cancelling an order that rests answers what it had resting and takes it and nothing else off the lists |
| Answers.CancelAnswersStop | src/exchange.rs:366-374 | cancelling a pending stop answers its quantity, and no price fires it any more |
| Answers.CancelFailsIff | src/exchange.rs:365-391 | a cancel fails exactly when neither a pending stop nor an active order has the id; filled and cancelled records are told apart from none, and nothing changes |
| Answers.CancelGuardIsExact | src/book.rs:243-262 | the condition whole-run theorems put on a cancel holds exactly when the cancel takes that order, if there is an active one, and nobody else out of the book |
| Answers.ModifyAnswersResting | src/exchange.rs:417-445 | modifying an order that rests answers what it had resting; the replacement has the next id, its side, the new price and quantity, and no owner |
| Answers.ModifyFailsIff | src/exchange.rs:423-436 | a modify fails exactly when it asks for nothing or names no active order, in that order; a pending stop is not found, and nothing changes |
| StopTrailing.UpdateExact | src/stop.rs:247-345 | one trade price moves each pending trailing stop once, by its own rule, re-indexes it and touches nothing else |
| StopTrailing.NeverLoosens | src/stop.rs:299-345 | over any prices no trail method moves a stop away from the market |
| StopTrailing.FixedTrailClosedForm | src/stop.rs:247-345 | after any prices a fixed trail stands at the tighter of where it started and the extreme price less the trail; a trail that is not positive never moves it |
| StopTrailing.ExtremeIsExtreme | src/stop.rs:262-283 | the watermark is one of the prices seen and none is better |
| AveragedTrail.UpdateRemembers | src/stop.rs:247-260 | a stop book that holds the last of a list of prices and the newest changes, at most ten thousand, does so for the longer list after a trade |
| AveragedTrail.OffsetIs | src/stop.rs:284-291 | fixed: the trail itself; percentage: the best price times the fraction to the nearest whole number, halves away from zero; averaged: the mean of the newest `period` price changes times the multiplier, without its fraction |
| AveragedTrail.TrailClosedForm | src/stop.rs:247-372 | after any prices, for all three rules: the watermark is the best price, the stop the tightest of where it started and what the rule wanted after each price, offsets that are not positive left out |
| AveragedTrail.OldPricesForgotten | src/stop.rs:361-372 | two histories that agree on the last `period` prices move an averaged stop alike, whatever went before |
| PriceMemory.ReachableRemembers | src/stop.rs:247-260 | after any guarded run the stop book holds the last and the newest changes of one list of prices |
| Ratchet.StopsOnlyTighten | src/stop.rs:247-345 | over any guarded run a stop pending at both ends is the same stop, with a price no looser than it was |
| StaleSlots.StaleSlotIsReachable | src/level.rs:152-158 | five ordinary commands reach a well-formed exchange where cancelling one order removes another and the next crossing order matches for ever |
| StaleSlots.TwoOwnOrdersHang | src/matching.rs:177-190 | under `CancelOldest` a taker that meets two of its own orders at one price never finishes |
| StaleSlots.HollowNeverEnds | src/matching.rs:114-134 | matching that reaches a best level without live orders never ends |
| EngineLevel.Level.constructor | src/level.rs:28-35 | a new level is empty |
| EngineLevel.Level.Front | src/level.rs:80-91 | drops leading tombstones in place and answers the first live id |
| EngineLevel.Level.PushBack | src/level.rs:96-100 | appends to the queue and the total |
| EngineLevel.Level.PopFront | src/level.rs:108-118 | drops leading tombstones and then the first live id, with a total that does not fall below zero |
| EngineLevel.Level.MarkTombstone | src/level.rs:124-132 | tombstones one slot; out of range and already dead slots change nothing |
| EngineLevel.Level.Remove | src/level.rs:141-149 | deletes the first slot holding the id |
| EngineLevel.Level.Compact | src/level.rs:152-158 | keeps exactly the live ids, in order |
| EngineLevel.Level.DecreaseQuantity | src/level.rs:163-165 | lowers the cached total |
| EngineOrder.Order.Fill | src/order.rs:172-188 | moves quantity from remaining to filled and sets the status |
| EngineOrder.Order.Cancel | src/order.rs:197-208 | cancels an active order and reports what was left |
| EngineOrder.Order.StpDecrement | src/order.rs:146-157 | gives up quantity without filling it |
| EngineSide.PriceLevels.InsertOrder | src/price_levels.rs:110-116 | creates the level if needed, updates the best price and answers the slot |
| EngineSide.PriceLevels.RecomputeBestPrice | src/price_levels.rs:218-223 | sets the cache to the extreme key |
| EngineSide.PriceLevels.RemoveLevel | src/price_levels.rs:154-161 | drops a level and recomputes the cache when it was the best |
| EngineSide.PriceLevels.MarkTombstone | src/price_levels.rs:119-126 | tombstones a slot and drops the level when its total reaches zero |
| EngineSide.PriceLevels.RemoveOrder | src/price_levels.rs:139-149 | deletes by id and drops an emptied level |
| EngineSide.PriceLevels.Compact | src/price_levels.rs:129-133 | compacts every level and touches no price |
| EngineSide.PriceLevels.TotalQuantity | src/price_levels.rs:188-190 | the loop over levels adds up all cached totals |
| EngineSide.PriceLevels.QuantityAtOrBetter | src/price_levels.rs:196-213 | the loop over levels adds up exactly the totals at or better than the limit |
| EngineBook.OrderBook.constructor | src/book.rs:60-69 | a new book is empty, counters at one |
| EngineBook.OrderBook.CreateOrder | src/book.rs:272-282 | hands out the next id and timestamp |
| EngineBook.OrderBook.AddOrder | src/book.rs:219-237 | queues and stores the order with its slot |
| EngineBook.OrderBook.CancelOrder | src/book.rs:243-262 | cancels through the remembered slot, right or stale, as the value layer says |
| EngineBook.OrderBook.MatchAtPrice | src/matching.rs:141-249 | wherever the source's loops end, the inner loop leaves the level in the state the step machine reaches |
| EngineBook.OrderBook.MatchOrderWithPolicy | src/matching.rs:102-138 | wherever the source's loops end, the outer loop ends where the step machine ends, with its books, taker and trades |
| EngineBook.OrderBook.AvailableToFill | src/matching.rs:254-256 | the liquidity query of the opposing side |
| EngineBook.OrderBook.Compact | src/book.rs:298-301 | compacts both sides |
| EngineBook.OrderBook.ClearHistory | src/book.rs:291-295 | keeps exactly the active orders |
| EngineStops.StopBook.Insert | src/stop.rs:112-129 | indexes, stores and, for a trailing stop, lists the order |
| EngineStops.StopBook.Cancel | src/stop.rs:132-157 | takes a pending stop out of index and list |
| EngineStops.StopBook.CollectTriggered | src/stop.rs:163-225 | the two bucket loops and the sort compute the value-layer collection |
| EngineStops.StopBook.UpdateTrailingStops | src/stop.rs:247-345 | records the price change, then moves the listed stops one by one |
| EngineStops.StopBook.ClearHistory | src/stop.rs:373-377 | keeps exactly the pending stops |
| EngineExchange.Exchange.constructor | src/exchange.rs:69-89 | a new exchange with its policy |
| EngineExchange.Exchange.SubmitInternal | src/exchange.rs:256-350 | whenever matching ends: check, match, then store, rest or cancel, by time in force and policy |
| EngineExchange.Exchange.SubmitLimit | src/exchange.rs:128-150 | logs, submits and fires stops when it traded |
| EngineExchange.Exchange.SubmitLimitWithOwner | src/exchange.rs:159-182 | the same with an owner that is not logged |
| EngineExchange.Exchange.SubmitMarket | src/exchange.rs:191-207 | submits at the extreme price as IOC |
| EngineExchange.Exchange.CancelInternal | src/exchange.rs:365-391 | withdraws a pending stop first, else cancels a resting order, else answers why not |
| EngineExchange.Exchange.Cancel | src/exchange.rs:357-362 | logs and cancels |
| EngineExchange.Exchange.ModifyInternal | src/exchange.rs:417-445 | cancels, then submits the replacement on the same side with the same time in force |
| EngineExchange.Exchange.Modify | src/exchange.rs:400-414 | the public form records its trades but fires no stop, and answers what the replacement did |
| EngineExchange.Exchange.InsertStop | src/exchange.rs:595-650 | stores the stop, and fires at once when the last price already reaches it |
| EngineExchange.Exchange.SubmitStopMarket | src/exchange.rs:457-471 | logs and inserts a stop that becomes a market order, and answers its id and status |
| EngineExchange.Exchange.SubmitStopLimit | src/exchange.rs:477-495 | logs and inserts a stop that becomes a limit order, and answers its id and status |
| EngineExchange.Exchange.SubmitTrailingStopMarket | src/exchange.rs:504-527 | logs and inserts a trailing stop, and answers its id and status |
| EngineExchange.Exchange.SubmitTrailingStopLimit | src/exchange.rs:533-560 | logs and inserts a trailing stop with a limit, and answers its id and status |
| EngineExchange.Exchange.ProcessTradeTriggers | src/exchange.rs:659-709 | the bounded loop of rounds: trail, collect, submit, adopt the new last price |
| EngineExchange.Exchange.Apply | src/event.rs:180-290 | performs one logged event, with stops fired after a modify that trades, and answers the trades it made |
| EngineExchange.Replay | src/event.rs:304-310 | folds a log over an empty exchange, wherever every event of it returns |
| EngineExchange.Exchange.Compact | src/exchange.rs:805-807 | compacts the book |
| EngineExchange.Exchange.ClearOrderHistory | src/exchange.rs:796-799 | clears finished stops and orders, and answers how many order records went |
| Simplex.ThresholdSumsToOne | src/optimize.rs:763-782 | at the scan's threshold the clipped entries sum to one |
| Simplex.ClippingProjects | src/optimize.rs:755-784 | clipping there is the Euclidean projection onto the simplex, strictly nearer than any other point |
| Simplex.EqualWeightsProjectIff | src/optimize.rs:747-754 | equal weights are the projection exactly when all entries are equal |
| Simplex.DegenerateInput | src/optimize.rs:747-754 | an input without a positive entry that does not project to equal weights |
| Simplex.LastKept | src/optimize.rs:766-775 | the scan finds the last entry above its running threshold |
| Simplex.NormalizedProjects | src/optimize.rs:718-738 | normalising lands on the simplex and leaves a point of it as it is |
| Simplex.NormalizeLongOnly | src/optimize.rs:718-738 | clips, then scales, or falls back to equal weights |
| Simplex.ProjectSimplex | src/optimize.rs:755-784 | an error exactly for empty input and for input without a positive entry; otherwise the unique projection, the final normalisation changing nothing |
| Dendrogram.RunIsGood | src/optimize.rs:377-411 | at every stage the clusters partition the assets, list the leaves of their trees, and every id handed out is a cluster or a child of exactly one merge |
| Dendrogram.DendrogramIsTree | src/optimize.rs:355-414 | a complete run has n - 1 merges, children below parents, every id but the root a child exactly once, sizes that count leaves, and root leaves that are the assets in some order |
| Bottleneck.DistancesAscend | src/optimize.rs:377-405 | merge distances are non-decreasing on a symmetric matrix |
| Bottleneck.MergeIsBottleneck | src/optimize.rs:384-405 | assets on two sides of a merge are connected at a threshold exactly when it reaches the merge's distance |
| Bottleneck.DendrogramIsBottleneck | src/optimize.rs:345-414 | every two assets are split by a merge, and its distance is their bottleneck |
| Bottleneck.FinishesIffConnected | src/optimize.rs:390-392 | clustering finishes exactly when finite distances connect all assets |
| Linkage.SingleDistance | src/optimize.rs:834-845 | the smallest finite distance between two member lists |
| Linkage.NearestPair | src/optimize.rs:378-389 | the first pair at the smallest distance, or none when no pair has a finite one |
| Linkage.SingleLinkage | src/optimize.rs:355-414 | returns the merges of a complete run, and nothing for a bad shape or a stuck run |
| Linkage.AppendLeaves | src/optimize.rs:847-863 | appends a cluster's leaves left to right |
| Linkage.AllUniqueIndices | src/optimize.rs:865-874 | true exactly for distinct indices in range |
| Linkage.OrderingIffUnique | src/optimize.rs:436-440 | n distinct indices below n are each index exactly once |
| Linkage.QuasiDiagonal | src/optimize.rs:421-441 | the root's leaves when they are each asset once, else nothing |
| Linkage.ClusterOrder | src/optimize.rs:518-523 | clustering and traversal together order the assets, each once, exactly when finite distances connect them |
| Bisection.ClusterVariance | src/optimize.rs:876-912 | the variance of the cluster's inverse-variance portfolio, always positive |
| Bisection.AllocateConserves | src/optimize.rs:460-487 | splitting loses no mass and leaves every asset a positive share |
| Bisection.AllocateByStack | src/optimize.rs:460-487 | the work stack, last in first out, computes the recursive split |
| BisectionOrder.AnyOrderAllocates | src/optimize.rs:462-487 | whatever order pending ranges are taken in, once none is left the entries are the recursive split |
| BisectionOrder.RepresentativesSumToOne | src/optimize.rs:460-487 | at every turn of every order pending ranges are disjoint, hold equal entries, and one entry of each together with the finished entries sum to one |
| RiskShares.AllocationIsBalanced | src/optimize.rs:472-485 | at every split, however deep, mass times cluster variance is the same for both halves (the masses are, below the threshold on the denominator) |
| RiskShares.BalancedIsAllocation | src/optimize.rs:460-487 | weights balanced at every split are the recursive split of their total: balance and total determine all weights |
| RiskShares.LessVariableGetsMore | src/optimize.rs:472-480 | where a split is balanced the half that varies less gets more |
| RiskShares.TwoAssets | src/optimize.rs:460-487 | for two assets weight times variance is the same |
| UncorrelatedAssets.VarianceOfUncorrelated | src/optimize.rs:876-912 | on a diagonal covariance with entries between 1e-12 and 1e12 the cluster variance is one over the sum of the reciprocals of the entries |
| UncorrelatedAssets.SmallVariancesAreFloored | src/optimize.rs:887-898 | inside a cluster weight times the larger of variance and 1e-12 is the same for every asset, as long as that stays at most 1e12 |
| UncorrelatedAssets.VarianceOfPair | src/optimize.rs:900-911 | the variance of two assets, correlated or not: the product of their variances times the sum of all four entries over the squared sum of the variances; 1e-12 where that is not positive |
| UncorrelatedAssets.UncorrelatedIsInverseVariance | src/optimize.rs:447-498 | for uncorrelated assets, in any order, the whole recursion gives the inverse-variance portfolio |
| Bisection.Scatter | src/optimize.rs:489-492 | weights move to their assets' slots with an unchanged total |
| Bisection.RecursiveBisection | src/optimize.rs:447-498 | for a valid order the weights are on the simplex and are the recursive split, the last normalisation changing nothing; otherwise nothing |
| Bisection.HierarchicalRiskParity | src/optimize.rs:505-528 | exactly when finite distances connect the assets, the weights are the recursive split along the leaves of the finished dendrogram, on the simplex; otherwise nothing |
| Windows.WindowSlides | src/indicators.rs:119-122 | add the entry that comes in, take away the one that leaves |
| Windows.EmaShifts | src/indicators.rs:571-576 | an average seeded late is the ordinary average of the tail |
| Panels.Ema | src/indicators.rs:27-43 | the exponential average of a column |
| Panels.Sma | src/indicators.rs:109-124 | sliding sums are true window means |
| Panels.EmaPanel | src/indicators.rs:53-86 | one pass over all columns equals the column definition at every cell, for every shape and period |
| Panels.SmaPanel | src/indicators.rs:127-157 | the same for window means |
| Indicators.SmaOfLine | src/indicators.rs:109-124 | the simple average of a straight line, rising, falling or constant, stands at the middle of its window |
| Indicators.EmaOfLine | src/indicators.rs:27-43 | the exponential average follows a straight line exactly half a window behind, from its seed on |
| Macd.Macd | src/indicators.rs:552-609 | the column definition, through two averages and the average of their difference |
| Macd.MacdPanel | src/indicators.rs:227-320 | one pass with late fast seed and delayed signal equals the column definition at every cell |
| Indicators.MacdOfLine | src/indicators.rs:552-609 | on straight-line prices the reading is the slope times half the gap between the periods, positive exactly when they rise, with the signal equal and the histogram zero |
| Wilder.Rsi | src/indicators.rs:497-533 | the column definition |
| Wilder.RsiPanel | src/indicators.rs:180-223 | one pass equals the column definition at every cell |
| Wilder.RsiInRange | src/indicators.rs:455-463 | the index lies between 0 and 100 |
| Indicators.RsiIs | src/indicators.rs:455-533 | the index times the sum of the average rise and fall is 100 times the average rise, for averages given by their recurrence on the prices; zero when nothing moved |
| UltimateOscillator.Ultosc | src/indicators.rs:1243-1343 | six running sums over three windows give each window summed from scratch |
| Indicators.BarTerms | src/indicators.rs:1224-1240 | the true range is the length of the least interval holding the bar and the close before it, the pressure the way from its lower end to the close |
| Indicators.UltIs | src/indicators.rs:1243-1343 | seven times the oscillator is 100 times four, two and one parts of the shares of the short, middle and long window; on proper bars it lies between 0 and 100 |
| Welford.WelfordMeanM2 | src/stats.rs:35-47 | one pass gives the mean and the sum of squared distances from it, and zeros for no data |
| Welford.DeviationMoves | src/stats.rs:18-31 | how the sum of squared distances changes when its centre moves |
| Welford.MeanIsNearest | src/stats.rs:35-47 | no other centre has a smaller sum of squared distances |
| Ranks.RankBy | src/stats.rs:91-107 | any sorted order of the indices gives each entry the count below it plus half of one more than the count equal to it |
| Ranks.RankData | src/stats.rs:65-108 | one missing value makes all ranks missing, otherwise every entry gets its average rank |
| Ranks.RanksFollowValues | src/stats.rs:51-55 | ranks order and tie entries exactly as their values do |
| Ranks.RanksSum | src/stats.rs:51-55 | ranks of n entries add up to n(n + 1)/2, counted twice to stay whole |

## Left out

- 64-bit arithmetic: quantities, ids and timestamps are unbounded naturals and prices unbounded integers, so sums are assumed to stay below 2^64; a level's total still stops at zero when lowered.
- UncorrelatedAssets.UncorrelatedIsInverseVariance: entries between 1e-12 and 1e12 and a sum of reciprocals below 1e18 keep the source's three thresholds out of play; beyond them it substitutes constants.
- Floating point: optimisers, indicators and ranks are in exact reals; rounding, NaN arithmetic and infinities inside covariances and prices are not modelled. Missing outputs, missing rank inputs and distances that are not finite are `None`.
- AveragedTrail.OffsetIs: percentage trails and averaged trails round an exact real, so an offset may differ by one from the float computation where the exact value is whole or halfway.
- NaiveRuns.ExchangeIsNaive: a modify must name a queued order, or one that is not open; the naive exchange keeps lists, not the records of orders that rest nowhere, so it cannot resubmit one.
- Linkage.AppendLeaves: requires children below parents, which the clustering guarantees; on a malformed list the source's recursion need not end.
- Bisection.HierarchicalRiskParity: starts from the distance and covariance matrices; the statistics before it use square roots.
- Macd.MacdPanel: the signal pass is the panel average of the differences; the source writes the same loop out again.
- Macd.Macd: the three output vectors are one vector of readings, as their cells are always filled together.
- Ranks.RankData: sorts by insertion; the library sort of the source appears only through what it returns.
- StopBook orders are values in the engine's map, as the source replaces their fields through the map.
- `pop_best_level`, depth snapshots, iterators, `try_submit_*` validation and plain accessors: they would add easy members.
- Bollinger bands, ATR and the other indicators: square roots, or the same shapes as those proved.
- Projected-gradient and risk-parity optimisers, inverse CVaR and CDaR weights, p-values, deflated Sharpe: their meaning lies in floating-point tolerances or transcendental functions.
- Persistence, ITCH parsing, the replay harness, portfolios, brokers, bindings and benches: input and output, or sources outside the repository.
