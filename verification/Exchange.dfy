/** The exchange as callers use it: books, trade log, stop book and event log edited in place. */
module EngineExchange {
  import opened Types
  import opened OrderModel
  import opened LevelModel
  import opened SideModel
  import opened BookModel
  import opened PriceTime
  import opened MatchModel
  import opened Matching
  import opened StopModel
  import opened StopTriggers
  import opened StopTrailing
  import opened ExchangeModel
  import opened Submission
  import opened ExchangeSafety
  import opened ExchangeRuns
  import opened Ending
  import opened EngineOrder
  import opened EngineBook
  import opened EngineStops

  class Exchange {
    const book: OrderBook
    const stopBook: StopBook
    var trades: seq<Trade>
    var last: Option<Price>
    var policy: StpPolicy
    var events: seq<Event>

    ghost predicate Valid()
      reads this, book, book.bids, book.asks
    {
      && book.Valid() && this !in book.Repr() && stopBook !in book.Repr()
    }

    ghost function Repr(): set<object>
      reads this, book, book.bids, book.asks
    {
      {this, stopBook} + book.Repr()
    }

    ghost function Abs(): ExchangeState
      reads this, stopBook, book, book.bids, book.asks
      reads book.bids.levels.Values, book.asks.levels.Values, book.orders.Values
    {
      ExchangeState(book.Abs(), trades, stopBook.Abs(), last, policy, events)
    }

    constructor ()
      ensures Valid() && fresh(Repr()) && Abs() == NewExchange()
    {
      book := new OrderBook();
      stopBook := new StopBook();
      trades, last, policy, events := [], None, Off, [];
    }

    // Disposes of what matching left of `o`.
    method SettleOrder(o: Order, made: seq<Trade>, stpCancelled: bool, quantity: nat, tif: TimeInForce)
      returns (r: SubmitResult)
      requires Valid() && o !in Repr() && o.id !in book.orders && 0 < o.id < book.nextOrderId
      modifies Repr(), o
      ensures Valid() && forall x | x in Repr() :: x in old(Repr()) || x == o || fresh(x)
      ensures var end := MatchState(old(Abs()).book, old(o.Abs()), made, stpCancelled, None, true);
              Abs() == Settle(old(Abs()), end, quantity, tif).0 && r == Settle(old(Abs()), end, quantity, tif).1
    {
      hide AddOrder;
      SettleCases(Abs(), MatchState(Abs().book, o.Abs(), made, stpCancelled, None, true), quantity, tif);
      trades := trades + made;
      var filled, remaining := o.filled, o.remaining;
      var status := SettledStatus(o.filled, o.remaining, stpCancelled, tif);
      if !stpCancelled && remaining > 0 && tif.GTC? {
        book.RestAs(o, status);
        r := SubmitResult(o.id, status, made, filled, remaining, 0);
      } else {
        book.StoreAs(o, status);
        r := SubmitResult(o.id, status, made, filled, 0, if stpCancelled then quantity - filled else remaining);
      }
    }

    // A rejected fill or kill only uses up an id and a timestamp.
    method Reject(s: Side, price: Price, quantity: nat) returns (r: SubmitResult)
      requires Valid()
      modifies book`nextOrderId, book`nextTimestamp
      ensures Valid() && Repr() == old(Repr())
      ensures Abs() == old(Abs()).(book := CreateOrder(old(Abs()).book, s, price, quantity, FOK).0)
      ensures r == SubmitResult(old(Abs()).book.nextOrderId, Cancelled, [], 0, 0, quantity)
    {
      var o := book.CreateOrder(s, price, quantity, FOK);
      r := SubmitResult(o.id, Cancelled, [], 0, 0, quantity);
    }

    method MatchNew(s: Side, price: Price, quantity: nat, tif: TimeInForce, owner: Option<nat>)
      returns (o: Order, made: seq<Trade>, stpCancelled: bool)
      requires Valid() && !FokRejected(Abs().book, s, price, quantity, tif)
      requires SubmitEnds(Abs(), s, price, quantity, tif, owner)
      modifies book.Repr()
      ensures Valid() && Repr() <= old(Repr())
      ensures fresh(o) && o !in Repr() && o.id !in book.orders && 0 < o.id < book.nextOrderId
      ensures var end := Matched(old(Abs()), s, price, quantity, tif, owner);
              && end == MatchState(book.Abs(), o.Abs(), made, stpCancelled, None, true)
              && Abs() == old(Abs()).(book := end.book)
    {
      o, made, stpCancelled := book.MatchNew(s, price, quantity, tif, owner, policy);
    }

    // Matches a new order and disposes of what is left of it.
    method Take(s: Side, price: Price, quantity: nat, tif: TimeInForce, owner: Option<nat>)
      returns (r: SubmitResult)
      requires Valid() && !FokRejected(Abs().book, s, price, quantity, tif)
      requires SubmitEnds(Abs(), s, price, quantity, tif, owner)
      modifies Repr()
      ensures Valid() && forall x | x in Repr() :: x in old(Repr()) || fresh(x)
      ensures var end := Matched(old(Abs()), s, price, quantity, tif, owner);
              Abs() == Settle(old(Abs()), end, quantity, tif).0 && r == Settle(old(Abs()), end, quantity, tif).1
    {
      SettleIgnoresBook(Abs(), Matched(Abs(), s, price, quantity, tif, owner), quantity, tif);
      var o, made, stpCancelled := MatchNew(s, price, quantity, tif, owner);
      r := SettleOrder(o, made, stpCancelled, quantity, tif);
    }

    // Whether the order is a fill or kill the book cannot fill.
    method IsRejected(s: Side, price: Price, quantity: nat, tif: TimeInForce) returns (rejected: bool)
      requires Valid()
      ensures Valid() && Abs() == old(Abs()) && Repr() == old(Repr())
      ensures rejected <==> FokRejected(Abs().book, s, price, quantity, tif)
    {
      rejected := false;
      if tif.FOK? {
        var enough := book.CanFullyFill(s, price, quantity);
        rejected := !enough;
      }
    }

    method SubmitInternal(s: Side, price: Price, quantity: nat, tif: TimeInForce, owner: Option<nat>)
      returns (r: SubmitResult)
      requires Valid() && SubmitEnds(Abs(), s, price, quantity, tif, owner)
      modifies Repr()
      ensures Valid() && forall x | x in Repr() :: x in old(Repr()) || fresh(x)
      ensures Abs() == Submit(old(Abs()), s, price, quantity, tif, owner).0
      ensures r == Submit(old(Abs()), s, price, quantity, tif, owner).1
    {
      SubmitCases(Abs(), s, price, quantity, tif, owner);
      var rejected := IsRejected(s, price, quantity, tif);
      if rejected {
        r := Reject(s, price, quantity);
      } else {
        r := Take(s, price, quantity, tif, owner);
      }
    }

    // ---- the stop cascade --------------------------------------------------------

    method SubmitStop(o: StopOrder) returns (r: SubmitResult)
      requires Valid() && SubmitStopEnds(Abs(), o)
      modifies Repr()
      ensures Valid() && forall x | x in Repr() :: x in old(Repr()) || fresh(x)
      ensures Abs() == ExchangeModel.SubmitStop(old(Abs()), o).0 && r == ExchangeModel.SubmitStop(old(Abs()), o).1
    {
      var price := if o.limitPrice.Some? then o.limitPrice.value else MarketPrice(o.side);
      var tif := if o.limitPrice.Some? then o.tif else IOC;
      r := SubmitInternal(o.side, price, o.quantity, tif, None);
    }

    // Submits the fired stops in order.
    method SubmitStops(stops: seq<StopOrder>) returns (newLast: Option<Price>)
      requires Valid() && SubmitStopsEnd(Abs(), stops)
      modifies Repr()
      ensures Valid() && forall x | x in Repr() :: x in old(Repr()) || fresh(x)
      ensures Abs() == ExchangeModel.SubmitStops(old(Abs()), stops, None).0
      ensures newLast == ExchangeModel.SubmitStops(old(Abs()), stops, None).1
    {
      newLast := None;
      for k := 0 to |stops|
        invariant Valid() && forall x | x in Repr() :: x in old(Repr()) || fresh(x)
        invariant SubmitStopsEnd(Abs(), stops[k..])
        invariant ExchangeModel.SubmitStops(Abs(), stops[k..], newLast) ==
                  ExchangeModel.SubmitStops(old(Abs()), stops, None)
      {
        assert stops[k..][1..] == stops[k + 1..];
        var r := SubmitStop(stops[k]);
        if r.trades != [] {
          newLast := LastPrice(r.trades);
        }
      }
    }

    // Moves trailing stops to `p` and takes out the stops it reaches.
    method FireAt(p: Price) returns (hit: seq<StopOrder>)
      requires Valid()
      modifies stopBook
      ensures Valid() && Repr() == old(Repr())
      ensures Abs() == ExchangeModel.FireAt(old(Abs()), p).0 && hit == ExchangeModel.FireAt(old(Abs()), p).1
    {
      hide CollectTriggered, ReachedIds, Buckets, SortByTime, TriggerAll, ReachedKeys, ReachedSet, UpdateTrailing,
           Valid;
      stopBook.UpdateTrailingStops(p);
      hit := stopBook.CollectTriggered(p);
    }

    method SetLast(price: Option<Price>)
      requires Valid()
      modifies this`last
      ensures Valid() && Repr() == old(Repr()) && Abs() == old(Abs()).(last := price)
    {
      last := price;
    }

    // Fires and submits at `p`.
    method FireAndSubmit(p: Price) returns (hit: seq<StopOrder>, newLast: Option<Price>)
      requires Valid()
      requires var (fired, reached) := ExchangeModel.FireAt(Abs(), p); SubmitStopsEnd(fired, reached)
      modifies Repr()
      ensures Valid() && forall x | x in Repr() :: x in old(Repr()) || fresh(x)
      ensures var fired := ExchangeModel.FireAt(old(Abs()), p);
              && hit == fired.1
              && Abs() == ExchangeModel.SubmitStops(fired.0, hit, None).0
              && newLast == ExchangeModel.SubmitStops(fired.0, hit, None).1
    {
      hit := FireAt(p);
      newLast := SubmitStops(hit);
    }

    method CascadeRound() returns (again: bool)
      requires Valid() && RoundEnds(Abs())
      modifies Repr()
      ensures Valid() && forall x | x in Repr() :: x in old(Repr()) || fresh(x)
      ensures Abs() == ExchangeModel.CascadeRound(old(Abs())).next
      ensures again == ExchangeModel.CascadeRound(old(Abs())).again
    {
      if last.None? {
        return false;
      }
      var hit, newLast := FireAndSubmit(last.value);
      again := newLast.Some?;
      if again {
        SetLast(newLast);
      }
    }

    /** Fires stops at the last price, round after round, at most 100 times. */
    method ProcessTradeTriggers()
      requires Valid() && CascadeEnds(Abs(), MAX_CASCADE_DEPTH)
      modifies Repr()
      ensures Valid() && forall x | x in Repr() :: x in old(Repr()) || fresh(x)
      ensures Abs() == ExchangeModel.ProcessTradeTriggers(old(Abs()))
    {
      hide Abs;
      for round := 0 to MAX_CASCADE_DEPTH
        invariant Valid() && forall x | x in Repr() :: x in old(Repr()) || fresh(x)
        invariant CascadeEnds(Abs(), MAX_CASCADE_DEPTH - round)
        invariant Cascade(Abs(), MAX_CASCADE_DEPTH - round) == ExchangeModel.ProcessTradeTriggers(old(Abs()))
      {
        CascadeTurn(Abs(), MAX_CASCADE_DEPTH - round);
        var again := CascadeRound();
        if !again {
          return;
        }
      }
    }

    method AfterTrades(made: seq<Trade>)
      requires Valid() && AfterTradesEnds(Abs(), made)
      modifies Repr()
      ensures Valid() && forall x | x in Repr() :: x in old(Repr()) || fresh(x)
      ensures Abs() == ExchangeModel.AfterTrades(old(Abs()), made)
    {
      if made != [] {
        SetLast(LastPrice(made));
        ProcessTradeTriggers();
      }
    }

    method SubmitAndFire(s: Side, price: Price, quantity: nat, tif: TimeInForce, owner: Option<nat>)
      returns (r: SubmitResult)
      requires Valid() && SubmitAndFireEnds(Abs(), s, price, quantity, tif, owner)
      modifies Repr()
      ensures Valid() && forall x | x in Repr() :: x in old(Repr()) || fresh(x)
      ensures Abs() == ExchangeModel.SubmitAndFire(old(Abs()), s, price, quantity, tif, owner).0
      ensures r == ExchangeModel.SubmitAndFire(old(Abs()), s, price, quantity, tif, owner).1
    {
      r := SubmitInternal(s, price, quantity, tif, owner);
      AfterTrades(r.trades);
    }

    method Record(e: Event)
      requires Valid()
      modifies this`events
      ensures Valid() && Repr() == old(Repr()) && Abs() == Log(old(Abs()), e)
    {
      events := events + [e];
    }

    // ---- public commands -------------------------------------------------------------

    method SubmitLimit(s: Side, price: Price, quantity: nat, tif: TimeInForce) returns (r: SubmitResult)
      requires Valid() && EventEnds(Abs(), LimitEvent(s, price, quantity, tif))
      modifies Repr()
      ensures Valid() && forall x | x in Repr() :: x in old(Repr()) || fresh(x)
      ensures Abs() == Perform(old(Abs()), LimitEvent(s, price, quantity, tif))
      ensures r == Submit(Log(old(Abs()), LimitEvent(s, price, quantity, tif)), s, price, quantity, tif, None).1
    {
      Record(LimitEvent(s, price, quantity, tif));
      r := SubmitAndFire(s, price, quantity, tif, None);
    }

    method SubmitLimitWithOwner(s: Side, price: Price, quantity: nat, tif: TimeInForce, owner: nat)
      returns (r: SubmitResult)
      requires Valid()
      requires SubmitAndFireEnds(Log(Abs(), LimitEvent(s, price, quantity, tif)), s, price, quantity, tif, Some(owner))
      modifies Repr()
      ensures Valid() && forall x | x in Repr() :: x in old(Repr()) || fresh(x)
      ensures Abs() == PerformTagged(old(Abs()), s, price, quantity, tif, owner)
      ensures r == Submit(Log(old(Abs()), LimitEvent(s, price, quantity, tif)), s, price, quantity, tif, Some(owner)).1
    {
      Record(LimitEvent(s, price, quantity, tif));
      r := SubmitAndFire(s, price, quantity, tif, Some(owner));
    }

    method SubmitMarket(s: Side, quantity: nat) returns (r: SubmitResult)
      requires Valid() && EventEnds(Abs(), MarketEvent(s, quantity))
      modifies Repr()
      ensures Valid() && forall x | x in Repr() :: x in old(Repr()) || fresh(x)
      ensures Abs() == Perform(old(Abs()), MarketEvent(s, quantity))
      ensures r == Submit(Log(old(Abs()), MarketEvent(s, quantity)), s, MarketPrice(s), quantity, IOC, None).1
    {
      Record(MarketEvent(s, quantity));
      r := SubmitAndFire(s, MarketPrice(s), quantity, IOC, None);
    }

    // Cancels in the regular book.
    method CancelResting(id: OrderId) returns (cancelled: Option<nat>)
      requires Valid()
      modifies book.Repr()
      ensures Valid() && Repr() <= old(Repr())
      ensures Abs() == old(Abs()).(book := CancelOrder(old(Abs()).book, id).0)
      ensures cancelled == CancelOrder(old(Abs()).book, id).1
    {
      cancelled := book.CancelOrder(id);
    }

    method CancelStop(id: OrderId)
      requires Valid()
      modifies stopBook
      ensures Valid() && Repr() == old(Repr())
      ensures Abs() == old(Abs()).(stops := Withdraw(old(Abs()).stops, id).0)
    {
      var cancelled := stopBook.Cancel(id);
    }

    method CancelInternal(id: OrderId) returns (r: CancelResult)
      requires Valid()
      modifies Repr()
      ensures Valid() && Repr() <= old(Repr())
      ensures Abs() == ExchangeModel.CancelInternal(old(Abs()), id).0
      ensures r == ExchangeModel.CancelInternal(old(Abs()), id).1
    {
      if stopBook.ContainsPending(id) {
        var quantity := stopBook.orders[id].quantity;
        CancelStop(id);
        return CancelDone(quantity);
      }
      if id !in book.orders {
        return CancelFailed(CancelNotFound);
      }
      if !book.orders[id].status.IsActive() {
        return CancelFailed(CancelNotActive);
      }
      var cancelled := CancelResting(id);
      return if cancelled.Some? then CancelDone(cancelled.value) else CancelFailed(CancelNotActive);
    }

    method Cancel(id: OrderId) returns (r: CancelResult)
      requires Valid()
      modifies Repr()
      ensures Valid() && Repr() <= old(Repr())
      ensures Abs() == Perform(old(Abs()), CancelEvent(id))
      ensures r == ExchangeModel.CancelInternal(Log(old(Abs()), CancelEvent(id)), id).1
    {
      Record(CancelEvent(id));
      r := CancelInternal(id);
    }

    method ModifyInternal(id: OrderId, newPrice: Price, newQuantity: nat) returns (r: ModifyResult)
      requires Valid() && ModifyEnds(Abs(), id, newPrice, newQuantity)
      modifies Repr()
      ensures Valid() && forall x | x in Repr() :: x in old(Repr()) || fresh(x)
      ensures Abs() == ExchangeModel.ModifyInternal(old(Abs()), id, newPrice, newQuantity).0
      ensures r == ExchangeModel.ModifyInternal(old(Abs()), id, newPrice, newQuantity).1
    {
      if newQuantity == 0 {
        return ModifyFailed(InvalidQuantity);
      }
      if id !in book.orders {
        return ModifyFailed(ModifyNotFound);
      }
      if !book.orders[id].status.IsActive() {
        return ModifyFailed(ModifyNotActive);
      }
      var s, tif := book.orders[id].side, book.orders[id].tif;
      var cancelled := CancelResting(id);
      if cancelled.None? {
        return ModifyFailed(ModifyNotActive);
      }
      var submitted := SubmitInternal(s, newPrice, newQuantity, tif, None);
      return ModifyDone(submitted.orderId, cancelled.value, submitted.trades);
    }

    method Modify(id: OrderId, newPrice: Price, newQuantity: nat) returns (r: ModifyResult)
      requires Valid() && EventEnds(Abs(), ModifyEvent(id, newPrice, newQuantity))
      modifies Repr()
      ensures Valid() && forall x | x in Repr() :: x in old(Repr()) || fresh(x)
      ensures Abs() == Perform(old(Abs()), ModifyEvent(id, newPrice, newQuantity))
      ensures r == ExchangeModel.ModifyInternal(Log(old(Abs()), ModifyEvent(id, newPrice, newQuantity)), id,
                                                newPrice, newQuantity).1
    {
      hide GoodExchange, Abs, GoodSide, IndexExact, Finish, SlotOf, StoreOrder, GoodStops, GoodBook, Triggerable,
           StopsBehind, NewStop, IsPending;
      Record(ModifyEvent(id, newPrice, newQuantity));
      r := ModifyInternal(id, newPrice, newQuantity);
    }

    // ---- stop orders -----------------------------------------------------------------

    // Uses up an id and a timestamp.
    method UseId()
      requires Valid()
      modifies book`nextOrderId, book`nextTimestamp
      ensures Valid() && Repr() == old(Repr())
      ensures var b := old(Abs()).book;
              Abs() == old(Abs()).(book := b.(nextOrderId := b.nextOrderId + 1, nextTimestamp := b.nextTimestamp + 1))
    {
      ghost var before := Abs();
      book.nextOrderId, book.nextTimestamp := book.nextOrderId + 1, book.nextTimestamp + 1;
      SameOrders(book.Orders(), before.book.orders);
    }

    method PlaceStop(o: StopOrder)
      requires Valid()
      modifies stopBook, book`nextOrderId, book`nextTimestamp
      ensures Valid() && Repr() == old(Repr())
      ensures Abs() == ExchangeModel.PlaceStop(old(Abs()), o)
    {
      hide Insert;
      UseId();
      stopBook.Insert(o);
    }

    method InsertStop(s: Side, stopPrice: Price, limit: Option<Price>, quantity: nat, tif: TimeInForce,
                      trail: Option<TrailMethod>) returns (r: StopSubmitResult)
      requires Valid() && InsertStopEnds(Abs(), s, stopPrice, limit, quantity, tif, trail)
      modifies Repr()
      ensures Valid() && forall x | x in Repr() :: x in old(Repr()) || fresh(x)
      ensures Abs() == ExchangeModel.InsertStop(old(Abs()), s, stopPrice, limit, quantity, tif, trail).0
      ensures r == ExchangeModel.InsertStop(old(Abs()), s, stopPrice, limit, quantity, tif, trail).1
    {
      var o := StopOrder(book.nextOrderId, s, stopPrice, limit, quantity, tif, book.nextTimestamp, Pending, trail,
                         None);
      PlaceStop(o);
      if trail.None? && last.Some? && Triggerable(o, last.value) {
        ProcessTradeTriggers();
        r := StopSubmitResult(o.id, if o.id in stopBook.orders then stopBook.orders[o.id].status else Triggered);
      } else {
        r := StopSubmitResult(o.id, Pending);
      }
    }

    // Logs the event, then places the stop it asks for.
    method LogAndInsert(e: Event, s: Side, stopPrice: Price, limit: Option<Price>, quantity: nat, tif: TimeInForce,
                        trail: Option<TrailMethod>) returns (r: StopSubmitResult)
      requires Valid() && EventEnds(Abs(), e)
      requires e.StopMarketEvent? || e.StopLimitEvent? || e.TrailingMarketEvent? || e.TrailingLimitEvent?
      requires StopOf(e) == (s, stopPrice, limit, quantity, tif, trail)
      modifies Repr()
      ensures Valid() && forall x | x in Repr() :: x in old(Repr()) || fresh(x)
      ensures Abs() == Perform(old(Abs()), e)
      ensures r == ExchangeModel.InsertStop(Log(old(Abs()), e), s, stopPrice, limit, quantity, tif, trail).1
    {
      PerformIsInsert(Abs(), e);
      StopEventEnds(Abs(), e);
      Record(e);
      r := InsertStop(s, stopPrice, limit, quantity, tif, trail);
    }

    method SubmitStopMarket(s: Side, stopPrice: Price, quantity: nat) returns (r: StopSubmitResult)
      requires Valid() && EventEnds(Abs(), StopMarketEvent(s, stopPrice, quantity))
      modifies Repr()
      ensures Valid() && forall x | x in Repr() :: x in old(Repr()) || fresh(x)
      ensures Abs() == Perform(old(Abs()), StopMarketEvent(s, stopPrice, quantity))
      ensures r == ExchangeModel.InsertStop(Log(old(Abs()), StopMarketEvent(s, stopPrice, quantity)),
                                            s, stopPrice, None, quantity, GTC, None).1
    {
      r := LogAndInsert(StopMarketEvent(s, stopPrice, quantity),
                        s, stopPrice, None, quantity, GTC, None);
    }

    method SubmitStopLimit(s: Side, stopPrice: Price, limit: Price, quantity: nat, tif: TimeInForce)
      returns (r: StopSubmitResult)
      requires Valid() && EventEnds(Abs(), StopLimitEvent(s, stopPrice, limit, quantity, tif))
      modifies Repr()
      ensures Valid() && forall x | x in Repr() :: x in old(Repr()) || fresh(x)
      ensures Abs() == Perform(old(Abs()), StopLimitEvent(s, stopPrice, limit, quantity, tif))
      ensures r == ExchangeModel.InsertStop(Log(old(Abs()), StopLimitEvent(s, stopPrice, limit, quantity, tif)),
                                            s, stopPrice, Some(limit), quantity, tif, None).1
    {
      r := LogAndInsert(StopLimitEvent(s, stopPrice, limit, quantity, tif),
                        s, stopPrice, Some(limit), quantity, tif, None);
    }

    method SubmitTrailingStopMarket(s: Side, stopPrice: Price, quantity: nat, trail: TrailMethod)
      returns (r: StopSubmitResult)
      requires Valid() && EventEnds(Abs(), TrailingMarketEvent(s, stopPrice, quantity, trail))
      modifies Repr()
      ensures Valid() && forall x | x in Repr() :: x in old(Repr()) || fresh(x)
      ensures Abs() == Perform(old(Abs()), TrailingMarketEvent(s, stopPrice, quantity, trail))
      ensures r == ExchangeModel.InsertStop(Log(old(Abs()), TrailingMarketEvent(s, stopPrice, quantity, trail)),
                                            s, stopPrice, None, quantity, GTC, Some(trail)).1
    {
      r := LogAndInsert(TrailingMarketEvent(s, stopPrice, quantity, trail),
                        s, stopPrice, None, quantity, GTC, Some(trail));
    }

    method SubmitTrailingStopLimit(s: Side, stopPrice: Price, limit: Price, quantity: nat, tif: TimeInForce,
                                   trail: TrailMethod) returns (r: StopSubmitResult)
      requires Valid() && EventEnds(Abs(), TrailingLimitEvent(s, stopPrice, limit, quantity, tif, trail))
      modifies Repr()
      ensures Valid() && forall x | x in Repr() :: x in old(Repr()) || fresh(x)
      ensures Abs() == Perform(old(Abs()), TrailingLimitEvent(s, stopPrice, limit, quantity, tif, trail))
      ensures r == ExchangeModel.InsertStop(Log(old(Abs()),
                                                TrailingLimitEvent(s, stopPrice, limit, quantity, tif, trail)),
                                            s, stopPrice, Some(limit), quantity, tif, Some(trail)).1
    {
      r := LogAndInsert(TrailingLimitEvent(s, stopPrice, limit, quantity, tif, trail),
                        s, stopPrice, Some(limit), quantity, tif, Some(trail));
    }

    // ---- replay ------------------------------------------------------------------------

    // A modify that trades fires stops here; the public `Modify` does not.
    method ApplyModify(id: OrderId, newPrice: Price, newQuantity: nat) returns (made: seq<Trade>)
      requires Valid() && ModifyEnds(Abs(), id, newPrice, newQuantity)
      requires var (next, r) := ExchangeModel.ModifyInternal(Abs(), id, newPrice, newQuantity);
               AfterTradesEnds(next, ModifyTrades(r))
      modifies Repr()
      ensures Valid() && forall x | x in Repr() :: x in old(Repr()) || fresh(x)
      ensures var r := ExchangeModel.ModifyInternal(old(Abs()), id, newPrice, newQuantity);
              Abs() == ExchangeModel.AfterTrades(r.0, ModifyTrades(r.1)) && made == ModifyTrades(r.1)
    {
      var r := ModifyInternal(id, newPrice, newQuantity);
      made := ModifyTrades(r);
      AfterTrades(made);
    }

    method Apply(e: Event) returns (made: seq<Trade>)
      requires Valid() && ApplyEnds(Abs(), e)
      modifies Repr()
      ensures Valid() && forall x | x in Repr() :: x in old(Repr()) || fresh(x)
      ensures Abs() == ExchangeModel.Apply(old(Abs()), e) && made == AppliedTrades(old(Abs()), e)
    {
      Record(e);
      made := [];
      match e {
        case LimitEvent(s, price, quantity, tif) =>
          var r := SubmitAndFire(s, price, quantity, tif, None);
          made := r.trades;
        case MarketEvent(s, quantity) =>
          var r := SubmitAndFire(s, MarketPrice(s), quantity, IOC, None);
          made := r.trades;
        case CancelEvent(id) =>
          var r := CancelInternal(id);
        case ModifyEvent(id, newPrice, newQuantity) =>
          made := ApplyModify(id, newPrice, newQuantity);
        case StopMarketEvent(s, stop, quantity) =>
          var r := InsertStop(s, stop, None, quantity, GTC, None);
        case StopLimitEvent(s, stop, limit, quantity, tif) =>
          var r := InsertStop(s, stop, Some(limit), quantity, tif, None);
        case TrailingMarketEvent(s, stop, quantity, trail) =>
          var r := InsertStop(s, stop, None, quantity, GTC, Some(trail));
        case TrailingLimitEvent(s, stop, limit, quantity, tif, trail) =>
          var r := InsertStop(s, stop, Some(limit), quantity, tif, Some(trail));
      }
    }

    // ---- housekeeping -----------------------------------------------------------------

    method Compact()
      requires Valid()
      modifies Repr()
      ensures Valid() && Repr() == old(Repr())
      ensures Abs() == Do(old(Abs()), CompactBooks)
    {
      book.Compact();
    }

    method ClearStops()
      requires Valid()
      modifies stopBook
      ensures Valid() && Repr() == old(Repr())
      ensures Abs() == old(Abs()).(stops := ClearStopHistory(old(Abs()).stops))
    {
      stopBook.ClearHistory();
    }

    method ClearOrderHistory() returns (removed: int)
      requires Valid()
      modifies Repr()
      ensures Valid() && Repr() <= old(Repr())
      ensures Abs() == Do(old(Abs()), ClearOrders)
      ensures removed == |old(Abs()).book.orders| - |Abs().book.orders|
    {
      hide Abs, Valid;
      ClearStops();
      removed := ClearBook();
    }

    method ClearBook() returns (removed: int)
      requires Valid()
      modifies book`orders
      ensures Valid() && Repr() <= old(Repr())
      ensures Abs() == old(Abs()).(book := ClearHistory(old(Abs()).book))
      ensures removed == |old(Abs()).book.orders| - |Abs().book.orders|
    {
      hide ClearHistory;
      removed := book.ClearHistory();
    }
  }

  /** Rebuilds an exchange from an event log. */
  method Replay(es: seq<Event>) returns (ex: Exchange)
    requires ReplayEnds(NewExchange(), es)
    ensures fresh(ex.Repr()) && ex.Valid() && ex.Abs() == ExchangeModel.Replay(es)
  {
    ex := new Exchange();
    for k := 0 to |es|
      invariant fresh(ex.Repr()) && ex.Valid()
      invariant ReplayEnds(ex.Abs(), es[k..])
      invariant ReplayFrom(ex.Abs(), es[k..]) == ExchangeModel.Replay(es)
    {
      assert es[k..][1..] == es[k + 1..];
      var made := ex.Apply(es[k]);
    }
  }

  // The trades a replayed event reports.
  ghost function AppliedTrades(ex: ExchangeState, e: Event): seq<Trade> {
    var logged := Log(ex, e);
    match e
    case LimitEvent(s, price, quantity, tif) => Submit(logged, s, price, quantity, tif, None).1.trades
    case MarketEvent(s, quantity) => Submit(logged, s, MarketPrice(s), quantity, IOC, None).1.trades
    case ModifyEvent(id, newPrice, newQuantity) => ModifyTrades(ModifyInternal(logged, id, newPrice, newQuantity).1)
    case _ => []
  }

  // The stop a stop event places.
  ghost function StopOf(e: Event): (Side, Price, Option<Price>, nat, TimeInForce, Option<TrailMethod>)
    requires e.StopMarketEvent? || e.StopLimitEvent? || e.TrailingMarketEvent? || e.TrailingLimitEvent?
  {
    match e
    case StopMarketEvent(s, stop, quantity) => (s, stop, None, quantity, GTC, None)
    case StopLimitEvent(s, stop, limit, quantity, tif) => (s, stop, Some(limit), quantity, tif, None)
    case TrailingMarketEvent(s, stop, quantity, trail) => (s, stop, None, quantity, GTC, Some(trail))
    case TrailingLimitEvent(s, stop, limit, quantity, tif, trail) => (s, stop, Some(limit), quantity, tif, Some(trail))
  }

  lemma PerformIsInsert(ex: ExchangeState, e: Event)
    requires e.StopMarketEvent? || e.StopLimitEvent? || e.TrailingMarketEvent? || e.TrailingLimitEvent?
    ensures var o := StopOf(e);
            Perform(ex, e) == ExchangeModel.InsertStop(Log(ex, e), o.0, o.1, o.2, o.3, o.4, o.5).0
  {
  }

  lemma CascadeTurn(ex: ExchangeState, n: nat)
    requires n > 0
    ensures var r := ExchangeModel.CascadeRound(ex);
            Cascade(ex, n) == if r.again then Cascade(r.next, n - 1) else r.next
  {
  }

  lemma StopEventEnds(ex: ExchangeState, e: Event)
    requires e.StopMarketEvent? || e.StopLimitEvent? || e.TrailingMarketEvent? || e.TrailingLimitEvent?
    requires EventEnds(ex, e)
    ensures var o := StopOf(e); InsertStopEnds(Log(ex, e), o.0, o.1, o.2, o.3, o.4, o.5)
  {
  }

  lemma SubmitCases(ex: ExchangeState, s: Side, price: Price, quantity: nat, tif: TimeInForce, owner: Option<nat>)
    ensures Submit(ex, s, price, quantity, tif, owner) ==
            if FokRejected(ex.book, s, price, quantity, tif) then
              (ex.(book := CreateOrder(ex.book, s, price, quantity, FOK).0),
               SubmitResult(ex.book.nextOrderId, Cancelled, [], 0, 0, quantity))
            else Settle(ex, Matched(ex, s, price, quantity, tif, owner), quantity, tif)
  {
  }

  function SettledStatus(filled: nat, remaining: nat, stpCancelled: bool, tif: TimeInForce): OrderStatus {
    if !stpCancelled && remaining == 0 then Filled
    else if filled > 0 then PartiallyFilled
    else if !stpCancelled && tif.GTC? then New
    else Cancelled
  }

  lemma SettleCases(ex: ExchangeState, end: MatchState, quantity: nat, tif: TimeInForce)
    ensures var o := end.incoming;
            var status := SettledStatus(o.filled, o.remaining, end.stpCancelled, tif);
            var next := ex.(book := end.book, trades := ex.trades + end.trades);
            Settle(ex, end, quantity, tif) ==
            if !end.stpCancelled && o.remaining > 0 && tif.GTC? then
              (next.(book := AddOrder(end.book, o.(status := status))),
               SubmitResult(o.id, status, end.trades, o.filled, o.remaining, 0))
            else
              (next.(book := StoreOrder(end.book, o.(status := status))),
               SubmitResult(o.id, status, end.trades, o.filled, 0,
                            if end.stpCancelled then quantity - o.filled else o.remaining))
  {
  }

  lemma SettleIgnoresBook(ex: ExchangeState, end: MatchState, quantity: nat, tif: TimeInForce)
    ensures Settle(ex.(book := end.book), end, quantity, tif) == Settle(ex, end, quantity, tif)
  {
  }
}
