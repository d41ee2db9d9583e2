/** When replaying the event log rebuilds the exchange, and exactly when it does not. */
module ReplayFidelity {
  import opened Types
  import opened OrderModel
  import opened SideModel
  import opened BookModel
  import opened PriceTime
  import opened MatchModel
  import opened Matching
  import opened Liquidity
  import opened StopModel
  import opened StopTriggers
  import opened StopTrailing
  import opened ExchangeModel
  import opened Submission
  import opened ExchangeSafety
  import opened ExchangeRuns
  import opened Guarantees

  // ---- the log is what was asked -------------------------------------------------

  lemma {:induction false} SubmitStopsLogs(ex: ExchangeState, stops: seq<StopOrder>, newLast: Option<Price>)
    ensures SubmitStops(ex, stops, newLast).0.events == ex.events
    decreases |stops|
  {
    if stops != [] {
      var (next, r) := SubmitStop(ex, stops[0]);
      SubmitStopsLogs(next, stops[1..], if r.trades == [] then newLast else LastPrice(r.trades));
    }
  }

  lemma CascadeLogs(ex: ExchangeState, n: nat)
    ensures Cascade(ex, n).events == ex.events
  {
    var round := (e: ExchangeState) => CascadeRound(e);
    var inv := (e: ExchangeState) => e.events == ex.events;
    forall e | inv(e) ensures inv(round(e).next) {
      if e.last.Some? {
        SubmitStopsLogs(FireAt(e, e.last.value).0, FireAt(e, e.last.value).1, None);
      }
    }
    RoundsInvariant(round, inv, ex, n);
  }

  lemma AfterTradesLogs(ex: ExchangeState, trades: seq<Trade>)
    ensures AfterTrades(ex, trades).events == ex.events
  {
    if trades != [] {
      CascadeLogs(ex.(last := LastPrice(trades)), MAX_CASCADE_DEPTH);
    }
  }

  lemma SubmitAndFireLogs(ex: ExchangeState, s: Side, price: Price, quantity: nat, tif: TimeInForce, owner: Option<nat>)
    ensures SubmitAndFire(ex, s, price, quantity, tif, owner).0.events == ex.events
  {
    var (next, r) := Submit(ex, s, price, quantity, tif, owner);
    AfterTradesLogs(next, r.trades);
  }

  lemma InsertStopLogs(ex: ExchangeState, s: Side, stopPrice: Price, limit: Option<Price>, quantity: nat,
                       tif: TimeInForce, trail: Option<TrailMethod>)
    ensures InsertStop(ex, s, stopPrice, limit, quantity, tif, trail).0.events == ex.events
  {
    CascadeLogs(PlaceStop(ex, NewStop(ex.book, s, stopPrice, limit, quantity, tif, trail)), MAX_CASCADE_DEPTH);
  }

  lemma PerformLogs(ex: ExchangeState, e: Event)
    ensures Perform(ex, e).events == ex.events + [e]
  {
    var logged := Log(ex, e);
    match e
    case LimitEvent(s, price, quantity, tif) => SubmitAndFireLogs(logged, s, price, quantity, tif, None);
    case MarketEvent(s, quantity) => SubmitAndFireLogs(logged, s, MarketPrice(s), quantity, IOC, None);
    case CancelEvent(id) =>
    case ModifyEvent(id, newPrice, newQuantity) =>
    case StopMarketEvent(s, stop, quantity) => InsertStopLogs(logged, s, stop, None, quantity, GTC, None);
    case StopLimitEvent(s, stop, limit, quantity, tif) =>
      InsertStopLogs(logged, s, stop, Some(limit), quantity, tif, None);
    case TrailingMarketEvent(s, stop, quantity, trail) =>
      InsertStopLogs(logged, s, stop, None, quantity, GTC, Some(trail));
    case TrailingLimitEvent(s, stop, limit, quantity, tif, trail) =>
      InsertStopLogs(logged, s, stop, Some(limit), quantity, tif, Some(trail));
  }

  // ---- one event -------------------------------------------------------------------

  // A modify whose replacement trades.
  ghost predicate TradingModify(ex: ExchangeState, e: Event) {
    e.ModifyEvent? && ModifyTrades(ModifyInternal(Log(ex, e), e.id, e.newPrice, e.newQuantity).1) != []
  }

  lemma ReplaysUnlessModifyTrades(ex: ExchangeState, e: Event)
    requires !TradingModify(ex, e)
    ensures Apply(ex, e) == Perform(ex, e)
  {
  }

  // ---- whole logs -------------------------------------------------------------------

  ghost function PerformAll(ex: ExchangeState, es: seq<Event>): ExchangeState
    decreases |es|
  {
    if es == [] then ex else PerformAll(Perform(ex, es[0]), es[1..])
  }

  ghost predicate NoTradingModify(ex: ExchangeState, es: seq<Event>)
    decreases |es|
  {
    es == [] || (!TradingModify(ex, es[0]) && NoTradingModify(Perform(ex, es[0]), es[1..]))
  }

  lemma {:induction false} ReplayFollows(ex: ExchangeState, es: seq<Event>)
    requires NoTradingModify(ex, es)
    ensures ReplayFrom(ex, es) == PerformAll(ex, es)
    decreases |es|
  {
    if es != [] {
      var next := Perform(ex, es[0]);
      assert Apply(ex, es[0]) == next by {
        ReplaysUnlessModifyTrades(ex, es[0]);
      }
      ReplayFollows(next, es[1..]);
    }
  }

  lemma {:induction false} PerformAllLogs(ex: ExchangeState, es: seq<Event>)
    ensures PerformAll(ex, es).events == ex.events + es
    decreases |es|
  {
    hide Perform;
    if es != [] {
      var next := Perform(ex, es[0]);
      PerformLogs(ex, es[0]);
      PerformAllLogs(next, es[1..]);
      assert ex.events + [es[0]] + es[1..] == ex.events + es;
    }
  }

  // Replaying the log of any run, guarded or not, whose modifies did not trade.
  lemma ReplayRebuildsQuiet(es: seq<Event>)
    requires NoTradingModify(NewExchange(), es)
    ensures var ex := PerformAll(NewExchange(), es);
            ex.events == es && Replay(ex.events) == ex
  {
    ReplayFollows(NewExchange(), es);
    PerformAllLogs(NewExchange(), es);
    assert NewExchange().events + es == es;
  }

  // ---- a trading modify does not replay ------------------------------------------------

  // The stop book has seen one more price than it had at `from`.
  predicate SawMore(from: StopState, to: StopState) {
    && to.last.Some? && |to.changes| <= MAX_PRICE_HISTORY
    && (from.last.Some? ==> |to.changes| > |from.changes|)
  }

  lemma UpdateSees(b: StopState, p: Price)
    requires GoodStops(b) && |b.changes| <= MAX_PRICE_HISTORY
    ensures var after := UpdateTrailing(b, p);
            && after.last == Some(p) && |after.changes| <= MAX_PRICE_HISTORY
            && |after.changes| >= |b.changes|
            && (b.last.Some? && |b.changes| < MAX_PRICE_HISTORY ==> |after.changes| > |b.changes|)
  {
    UpdateExact(b, p);
  }

  lemma RoundSees(ex: ExchangeState)
    requires GoodExchange(ex) && ex.last.Some? && |ex.stops.changes| <= MAX_PRICE_HISTORY
    ensures var after := CascadeRound(ex).next.stops;
            && after.last.Some? && |after.changes| <= MAX_PRICE_HISTORY && |after.changes| >= |ex.stops.changes|
            && (ex.stops.last.Some? && |ex.stops.changes| < MAX_PRICE_HISTORY ==>
                  |after.changes| > |ex.stops.changes|)
  {
    var p := ex.last.value;
    UpdateSees(ex.stops, p);
    FireAtKeeps(ex, p);
    SubmitStopsKeeps(FireAt(ex, p).0, FireAt(ex, p).1, None);
  }

  lemma CascadeSees(ex: ExchangeState, n: nat)
    requires GoodExchange(ex) && ex.last.Some? && |ex.stops.changes| < MAX_PRICE_HISTORY
    ensures SawMore(ex.stops, Cascade(ex, n + 1).stops)
  {
    var round := (e: ExchangeState) => CascadeRound(e);
    RoundKeeps(ex);
    RoundSees(ex);
    var first := round(ex);
    var inv := (e: ExchangeState) => GoodExchange(e) && e.last.Some? && SawMore(ex.stops, e.stops);
    forall e | inv(e) ensures inv(round(e).next) {
      RoundKeeps(e);
      RoundSees(e);
    }
    RoundsInvariant(round, inv, first.next, n);
  }

  // A caller can check this before a modify: the order is open and its replacement finds
  // something to trade with, and all of it if it is fill or kill.
  ghost predicate CrossingModify(ex: ExchangeState, e: Event) {
    && e.ModifyEvent? && e.newQuantity > 0
    && e.id in ex.book.orders && ex.book.orders[e.id].IsActive()
    && var o := ex.book.orders[e.id];
       var available := AvailableToFill(ex.book, o.side, e.newPrice);
       available > 0 && (o.tif.FOK? ==> available >= e.newQuantity)
  }

  // Trades are never empty, so a submission that traded filled something.
  lemma FilledWhenTraded(ex: ExchangeState, s: Side, price: Price, quantity: nat, tif: TimeInForce)
    requires GoodExchange(ex)
    ensures var r := Submit(ex, s, price, quantity, tif, None).1;
            (r.trades == [] ==> r.filled == 0) && (r.trades != [] ==> r.filled > 0)
  {
    hide Greedy, GoodBook, GoodStops, Submit, Volume;
    var live, t := View(ex.book).On(s.Opposite()), Taker(s, price, quantity, None);
    UntaggedIsSafe(ex.book, s, price, quantity, ex.policy);
    SubmitIsNaive(ex, s, price, quantity, tif, None);
    SideInPriority(ex.book, s.Opposite());
    FillsCount(live, t, ex.policy);
    TradesAreFills([], ex.book.nextTradeId, ex.book.nextTimestamp + 1, ex.book.nextOrderId, s);
    TradesAreFills(Greedy(live, t, ex.policy).fills, ex.book.nextTradeId, ex.book.nextTimestamp + 1,
                   ex.book.nextOrderId, s);
  }

  lemma FillsCount(live: seq<Resting>, t: Taker, policy: StpPolicy)
    requires forall x | x in live :: x.quantity > 0
    ensures var fills := Greedy(live, t, policy).fills; fills == [] <==> Volume(fills) == 0
  {
    FillsAreFair(live, t, policy);
    var fills := Greedy(live, t, policy).fills;
    if fills != [] {
      assert fills[0] in fills;
    }
  }

  /** A modify trades exactly when its replacement crosses: what the liquidity query answers before the call. */
  lemma TradesIffCrosses(ex: ExchangeState, e: Event)
    requires GoodExchange(ex) && EventGuard(ex, e)
    ensures TradingModify(ex, e) <==> CrossingModify(ex, e)
  {
    if e.ModifyEvent? && e.newQuantity > 0 && e.id in ex.book.orders && ex.book.orders[e.id].IsActive() {
      var logged, o := Log(ex, e), ex.book.orders[e.id];
      LogKeeps(ex, e);
      CancelBookKeeps(logged, e.id);
      var mid := logged.(book := CancelOrder(logged.book, e.id).0);
      ReplacementFills(mid, o.side, e.newPrice, e.newQuantity, o.tif);
      assert AvailableToFill(mid.book, o.side, e.newPrice) == AvailableToFill(ex.book, o.side, e.newPrice);
    }
  }

  lemma ReplacementFills(ex: ExchangeState, s: Side, price: Price, quantity: nat, tif: TimeInForce)
    requires GoodExchange(ex) && quantity > 0
    ensures var available := AvailableToFill(ex.book, s, price);
            Submit(ex, s, price, quantity, tif, None).1.trades != [] <==>
            available > 0 && (tif.FOK? ==> available >= quantity)
  {
    FilledWhenTraded(ex, s, price, quantity, tif);
    if !FokRejected(ex.book, s, price, quantity, tif) {
      FillsExactly(ex, s, price, quantity, tif, None);
    }
  }

  /** Below the history cap, an event replays exactly if it is not a modify that crosses:
      the public modify leaves the last price and the stops alone, replay does not. */
  lemma ReplaysIff(ex: ExchangeState, e: Event)
    requires GoodExchange(ex) && EventGuard(ex, e)
    requires |ex.stops.changes| < MAX_PRICE_HISTORY
    ensures Apply(ex, e) == Perform(ex, e) <==> !CrossingModify(ex, e)
  {
    hide CrossingModify;
    TradesIffCrosses(ex, e);
    if TradingModify(ex, e) {
      TradingModifyDiffers(ex, e);
    } else {
      ReplaysUnlessModifyTrades(ex, e);
    }
  }

  lemma TradingModifyDiffers(ex: ExchangeState, e: Event)
    requires GoodExchange(ex) && EventGuard(ex, e) && TradingModify(ex, e)
    requires |ex.stops.changes| < MAX_PRICE_HISTORY
    ensures Apply(ex, e) != Perform(ex, e)
  {
    var logged := Log(ex, e);
    ModifyKeeps(logged, e.id, e.newPrice, e.newQuantity);
    var (next, r) := ModifyInternal(logged, e.id, e.newPrice, e.newQuantity);
    assert next.stops == ex.stops;
    CascadeSees(next.(last := LastPrice(ModifyTrades(r))), MAX_CASCADE_DEPTH - 1);
  }

  // Cancels and modifies go through accurate slots, and no modify crosses.
  ghost predicate Replayable(ex: ExchangeState, es: seq<Event>)
    decreases |es|
  {
    es == [] || (EventGuard(ex, es[0]) && !CrossingModify(ex, es[0]) && Replayable(Perform(ex, es[0]), es[1..]))
  }

  lemma {:induction false} ReplayableTradesNothing(ex: ExchangeState, es: seq<Event>)
    requires GoodExchange(ex) && Replayable(ex, es)
    ensures NoTradingModify(ex, es)
    decreases |es|
  {
    hide GoodExchange, EventGuard, CrossingModify, TradingModify, Perform;
    if es != [] {
      TradesIffCrosses(ex, es[0]);
      PerformKeeps(ex, es[0]);
      ReplayableTradesNothing(Perform(ex, es[0]), es[1..]);
    }
  }

  /** Replaying the log of a guarded run whose modifies do not cross rebuilds the exchange in
      full: book, trades, stops, last price and the log itself. */
  lemma ReplayRebuilds(es: seq<Event>)
    requires Replayable(NewExchange(), es)
    ensures var ex := PerformAll(NewExchange(), es);
            ex.events == es && Replay(ex.events) == ex
  {
    NewExchangeIsGood();
    ReplayableTradesNothing(NewExchange(), es);
    ReplayRebuildsQuiet(es);
  }

  // ---- a tagged order does not replay ----------------------------------------------------

  // Orders on record stay on record, with their owners.
  ghost predicate OwnersKept(b: BookState, after: BookState) {
    forall id | id in b.orders :: id in after.orders && after.orders[id].owner == b.orders[id].owner
  }

  lemma SubmitKeepsOwners(ex: ExchangeState, s: Side, price: Price, quantity: nat, tif: TimeInForce, owner: Option<nat>)
    requires GoodExchange(ex)
    requires SubmitSafe(ex.book, s, price, quantity, owner, ex.policy)
    ensures var (next, r) := Submit(ex, s, price, quantity, tif, owner);
            && OwnersKept(ex.book, next.book)
            && (!FokRejected(ex.book, s, price, quantity, tif) ==>
                  r.orderId in next.book.orders && next.book.orders[r.orderId].owner == owner)
  {
    hide GoodSide, SubmitSafe, StopsBehind, NewOrder, Finish;
    if !FokRejected(ex.book, s, price, quantity, tif) {
      MatchedAgrees(ex, s, price, quantity, tif, owner);
    }
  }

  lemma {:induction false} SubmitStopsKeepsOwners(ex: ExchangeState, stops: seq<StopOrder>, newLast: Option<Price>)
    requires GoodExchange(ex)
    ensures OwnersKept(ex.book, SubmitStops(ex, stops, newLast).0.book)
    decreases |stops|
  {
    if stops != [] {
      var o := stops[0];
      var price := if o.limitPrice.Some? then o.limitPrice.value else MarketPrice(o.side);
      UntaggedIsSafe(ex.book, o.side, price, o.quantity, ex.policy);
      SubmitKeepsOwners(ex, o.side, price, o.quantity, if o.limitPrice.Some? then o.tif else IOC, None);
      SubmitStopKeeps(ex, o);
      var (next, r) := SubmitStop(ex, o);
      SubmitStopsKeepsOwners(next, stops[1..], if r.trades == [] then newLast else LastPrice(r.trades));
    }
  }

  lemma RoundKeepsOwners(b: BookState, ex: ExchangeState)
    requires GoodExchange(ex) && OwnersKept(b, ex.book)
    ensures OwnersKept(b, CascadeRound(ex).next.book)
  {
    hide GoodStops;
    if ex.last.Some? {
      FireAtKeeps(ex, ex.last.value);
      SubmitStopsKeepsOwners(FireAt(ex, ex.last.value).0, FireAt(ex, ex.last.value).1, None);
    }
  }

  lemma CascadeKeepsOwners(ex: ExchangeState, n: nat)
    requires GoodExchange(ex) && ex.last.Some?
    ensures OwnersKept(ex.book, Cascade(ex, n).book)
  {
    var round := (e: ExchangeState) => CascadeRound(e);
    var inv := (e: ExchangeState) => GoodExchange(e) && e.last.Some? && OwnersKept(ex.book, e.book);
    forall e | inv(e) ensures inv(round(e).next) {
      RoundKeeps(e);
      RoundKeepsOwners(ex.book, e);
    }
    RoundsInvariant(round, inv, ex, n);
  }

  lemma SubmitAndFireStoresOwner(ex: ExchangeState, s: Side, price: Price, quantity: nat, tif: TimeInForce,
                                 owner: Option<nat>)
    requires GoodExchange(ex)
    requires SubmitSafe(ex.book, s, price, quantity, owner, ex.policy)
    requires !FokRejected(ex.book, s, price, quantity, tif)
    ensures var after := SubmitAndFire(ex, s, price, quantity, tif, owner).0;
            ex.book.nextOrderId in after.book.orders && after.book.orders[ex.book.nextOrderId].owner == owner
  {
    SubmitKeeps(ex, s, price, quantity, tif, owner);
    SubmitKeepsOwners(ex, s, price, quantity, tif, owner);
    var (next, r) := Submit(ex, s, price, quantity, tif, owner);
    if r.trades != [] {
      CascadeKeepsOwners(next.(last := LastPrice(r.trades)), MAX_CASCADE_DEPTH);
    }
  }

  /** A tagged submission is logged without its owner, so it replays exactly only when it
      was rejected and nothing was stored. */
  lemma TaggedReplaysIff(ex: ExchangeState, s: Side, price: Price, quantity: nat, tif: TimeInForce, owner: nat)
    requires GoodExchange(ex)
    requires SubmitSafe(ex.book, s, price, quantity, Some(owner), ex.policy)
    ensures Apply(ex, LimitEvent(s, price, quantity, tif)) == PerformTagged(ex, s, price, quantity, tif, owner) <==>
            FokRejected(ex.book, s, price, quantity, tif)
  {
    var logged := Log(ex, LimitEvent(s, price, quantity, tif));
    if !FokRejected(ex.book, s, price, quantity, tif) {
      UntaggedIsSafe(ex.book, s, price, quantity, ex.policy);
      SubmitAndFireStoresOwner(logged, s, price, quantity, tif, None);
      SubmitAndFireStoresOwner(logged, s, price, quantity, tif, Some(owner));
    }
  }
}
