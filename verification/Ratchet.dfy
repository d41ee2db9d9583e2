/** A pending stop over whole runs: it is the order that was placed, and its price only tightens. */
module Ratchet {
  import opened Types
  import opened OrderModel
  import opened SideModel
  import opened BookModel
  import opened PriceTime
  import opened StopModel
  import opened StopTriggers
  import opened StopTrailing
  import opened ExchangeModel
  import opened Submission
  import opened ExchangeSafety
  import opened ExchangeRuns

  // The same stop, with a price no looser.
  predicate Tightened(from: StopOrder, to: StopOrder) {
    to == from.(stopPrice := to.stopPrice, watermark := to.watermark) &&
    !Looser(from.side, from.stopPrice, to.stopPrice)
  }

  // Whatever had an id at `a` and is pending at `b` was pending at `a`, and has only tightened.
  ghost predicate Ratchets(a: ExchangeState, b: ExchangeState) {
    && a.book.nextOrderId <= b.book.nextOrderId
    && forall id: nat | id < a.book.nextOrderId && IsPending(b.stops.orders, id) ::
         IsPending(a.stops.orders, id) && Tightened(a.stops.orders[id], b.stops.orders[id])
  }

  lemma SameStopsRatchet(a: ExchangeState, b: ExchangeState)
    requires a.book.nextOrderId <= b.book.nextOrderId && b.stops.orders == a.stops.orders
    ensures Ratchets(a, b)
  {
  }

  lemma RatchetsOn(a: ExchangeState, b: ExchangeState, c: ExchangeState)
    requires Ratchets(a, b) && Ratchets(b, c)
    ensures Ratchets(a, c)
  {
  }

  lemma MovedTightens(o: StopOrder, p: Price, changes: seq<int>)
    requires o.trail.Some?
    ensures Tightened(o, Moved(o, p, changes))
  {
  }

  lemma FireRatchets(ex: ExchangeState, p: Price)
    requires GoodExchange(ex)
    ensures Ratchets(ex, FireAt(ex, p).0)
  {
    hide GoodBook, IndexExact, CollectTriggered, UpdateTrailing, Moved;
    UpdateExact(ex.stops, p);
    var moved := UpdateTrailing(ex.stops, p);
    CollectExact(moved, p);
    forall id: nat | id in ex.stops.orders && IsTrailing(ex.stops.orders, id)
      ensures Tightened(ex.stops.orders[id], moved.orders[id])
    {
      MovedTightens(ex.stops.orders[id], p, ChangesAfter(ex.stops, p));
    }
  }

  lemma RoundRatchets(ex: ExchangeState)
    requires GoodExchange(ex) && ex.last.Some?
    ensures Ratchets(ex, CascadeRound(ex).next)
  {
    hide GoodExchange, FireAt;
    var p := ex.last.value;
    FireRatchets(ex, p);
    FireAtKeeps(ex, p);
    var (fired, hit) := FireAt(ex, p);
    SubmitStopsKeeps(fired, hit, None);
    SameStopsRatchet(fired, SubmitStops(fired, hit, None).0);
    RatchetsOn(ex, fired, SubmitStops(fired, hit, None).0);
  }

  lemma CascadeRatchets(ex: ExchangeState, n: nat)
    requires GoodExchange(ex) && ex.last.Some?
    ensures Ratchets(ex, Cascade(ex, n))
  {
    hide GoodExchange, CascadeRound;
    var round := (e: ExchangeState) => CascadeRound(e);
    var inv := (e: ExchangeState) => GoodExchange(e) && e.last.Some? && Ratchets(ex, e);
    SameStopsRatchet(ex, ex);
    forall e | inv(e) ensures inv(round(e).next) {
      RoundKeeps(e);
      RoundRatchets(e);
      RatchetsOn(ex, e, round(e).next);
    }
    RoundsInvariant(round, inv, ex, n);
  }

  lemma AfterTradesRatchets(ex: ExchangeState, trades: seq<Trade>)
    requires GoodExchange(ex)
    ensures Ratchets(ex, AfterTrades(ex, trades))
  {
    hide GoodExchange, Cascade;
    if trades == [] {
      SameStopsRatchet(ex, ex);
    } else {
      var priced := ex.(last := LastPrice(trades));
      RepricedIsGood(ex, LastPrice(trades));
      CascadeRatchets(priced, MAX_CASCADE_DEPTH);
      SameStopsRatchet(ex, priced);
      RatchetsOn(ex, priced, Cascade(priced, MAX_CASCADE_DEPTH));
    }
  }

  lemma SubmitRatchets(ex: ExchangeState, s: Side, price: Price, quantity: nat, tif: TimeInForce, owner: Option<nat>)
    requires GoodExchange(ex) && SubmitSafe(ex.book, s, price, quantity, owner, ex.policy)
    ensures Ratchets(ex, SubmitAndFire(ex, s, price, quantity, tif, owner).0)
  {
    hide GoodExchange, Submit, SubmitSafe, AfterTrades;
    SubmitKeeps(ex, s, price, quantity, tif, owner);
    var (next, r) := Submit(ex, s, price, quantity, tif, owner);
    SameStopsRatchet(ex, next);
    AfterTradesRatchets(next, r.trades);
    RatchetsOn(ex, next, AfterTrades(next, r.trades));
  }

  lemma CancelRatchets(ex: ExchangeState, id: OrderId)
    requires GoodExchange(ex) && CancelGuard(ex, id)
    ensures Ratchets(ex, CancelInternal(ex, id).0)
  {
    hide GoodBook, GoodStops;
  }

  lemma ModifyRatchets(ex: ExchangeState, id: OrderId, newPrice: Price, newQuantity: nat)
    requires GoodExchange(ex) && (newQuantity == 0 || CancelGuard(ex, id))
    ensures Ratchets(ex, ModifyInternal(ex, id, newPrice, newQuantity).0)
  {
    hide Submit;
    if newQuantity != 0 && id in ex.book.orders && ex.book.orders[id].IsActive() {
      CancelBookKeeps(ex, id);
      var o, mid := ex.book.orders[id], ex.(book := CancelOrder(ex.book, id).0);
      UntaggedIsSafe(mid.book, o.side, newPrice, newQuantity, ex.policy);
      SubmitKeeps(mid, o.side, newPrice, newQuantity, o.tif, None);
      SameStopsRatchet(ex, Submit(mid, o.side, newPrice, newQuantity, o.tif, None).0);
    } else {
      SameStopsRatchet(ex, ex);
    }
  }

  lemma InsertRatchets(ex: ExchangeState, s: Side, stopPrice: Price, limit: Option<Price>, quantity: nat,
                       tif: TimeInForce, trail: Option<TrailMethod>)
    requires GoodExchange(ex)
    ensures Ratchets(ex, InsertStop(ex, s, stopPrice, limit, quantity, tif, trail).0)
  {
    hide GoodExchange, Cascade;
    var o := NewStop(ex.book, s, stopPrice, limit, quantity, tif, trail);
    var placed := PlaceStop(ex, o);
    PlaceStopKeeps(ex, o);
    assert placed.stops.orders == ex.stops.orders[o.id := o];
    assert Ratchets(ex, placed);
    if ex.last.Some? {
      CascadeRatchets(placed, MAX_CASCADE_DEPTH);
      RatchetsOn(ex, placed, Cascade(placed, MAX_CASCADE_DEPTH));
    }
  }

  lemma LogRatchets(ex: ExchangeState, e: Event, after: ExchangeState)
    requires Ratchets(Log(ex, e), after)
    ensures Ratchets(ex, after)
  {
  }

  lemma EventRatchets(ex: ExchangeState, e: Event)
    requires GoodExchange(ex) && EventGuard(ex, e)
    ensures Ratchets(ex, Perform(ex, e)) && Ratchets(ex, Apply(ex, e))
  {
    hide GoodExchange, Ratchets, SubmitAndFire, AfterTrades, InsertStop, CancelInternal, ModifyInternal;
    var logged := Log(ex, e);
    LogKeeps(ex, e);
    match e {
      case LimitEvent(s, price, quantity, tif) =>
        UntaggedIsSafe(logged.book, s, price, quantity, logged.policy);
        SubmitRatchets(logged, s, price, quantity, tif, None);
        SubmitAndFireIs(logged, s, price, quantity, tif, None);
      case MarketEvent(s, quantity) =>
        UntaggedIsSafe(logged.book, s, MarketPrice(s), quantity, logged.policy);
        SubmitRatchets(logged, s, MarketPrice(s), quantity, IOC, None);
        SubmitAndFireIs(logged, s, MarketPrice(s), quantity, IOC, None);
      case CancelEvent(id) =>
        CancelRatchets(logged, id);
      case ModifyEvent(id, newPrice, newQuantity) =>
        ModifyRatchets(logged, id, newPrice, newQuantity);
        ModifyKeeps(logged, id, newPrice, newQuantity);
        var (next, r) := ModifyInternal(logged, id, newPrice, newQuantity);
        AfterTradesRatchets(next, ModifyTrades(r));
        RatchetsOn(logged, next, AfterTrades(next, ModifyTrades(r)));
      case StopMarketEvent(s, stop, quantity) =>
        InsertRatchets(logged, s, stop, None, quantity, GTC, None);
      case StopLimitEvent(s, stop, limit, quantity, tif) =>
        InsertRatchets(logged, s, stop, Some(limit), quantity, tif, None);
      case TrailingMarketEvent(s, stop, quantity, trail) =>
        InsertRatchets(logged, s, stop, None, quantity, GTC, Some(trail));
      case TrailingLimitEvent(s, stop, limit, quantity, tif, trail) =>
        InsertRatchets(logged, s, stop, Some(limit), quantity, tif, Some(trail));
    }
    LogRatchets(ex, e, Perform(ex, e));
    LogRatchets(ex, e, Apply(ex, e));
  }

  lemma SubmitAndFireIs(ex: ExchangeState, s: Side, price: Price, quantity: nat, tif: TimeInForce, owner: Option<nat>)
    ensures var (next, r) := Submit(ex, s, price, quantity, tif, owner);
            SubmitAndFire(ex, s, price, quantity, tif, owner).0 == AfterTrades(next, r.trades)
  {
  }

  lemma DoRatchets(ex: ExchangeState, c: Command)
    requires GoodExchange(ex) && Guard(ex, c)
    ensures Ratchets(ex, Do(ex, c))
  {
    hide GoodExchange, Perform, Apply, SubmitAndFire;
    match c
    case Public(e) => EventRatchets(ex, e);
    case ReplayOne(e) => EventRatchets(ex, e);
    case TaggedLimit(s, price, quantity, tif, owner) =>
      var e := LimitEvent(s, price, quantity, tif);
      LogKeeps(ex, e);
      SubmitRatchets(Log(ex, e), s, price, quantity, tif, Some(owner));
      LogRatchets(ex, e, Do(ex, c));
    case ClearOrders =>
    case _ => SameStopsRatchet(ex, Do(ex, c));
  }

  lemma {:induction false} RunRatchets(ex: ExchangeState, cs: seq<Command>)
    requires GoodExchange(ex) && Guarded(ex, cs)
    ensures Ratchets(ex, Run(ex, cs))
    decreases |cs|
  {
    hide GoodExchange, Do, Guard, Ratchets;
    if cs == [] {
      SameStopsRatchet(ex, ex);
    } else {
      DoKeeps(ex, cs[0]);
      DoRatchets(ex, cs[0]);
      RunRatchets(Do(ex, cs[0]), cs[1..]);
      RatchetsOn(ex, Do(ex, cs[0]), Run(Do(ex, cs[0]), cs[1..]));
    }
  }

  /** Over any guarded run a stop pending at both ends is the same stop, no looser than it was. */
  lemma StopsOnlyTighten(ex: ExchangeState, cs: seq<Command>, id: OrderId)
    requires GoodExchange(ex) && Guarded(ex, cs)
    requires IsPending(ex.stops.orders, id) && IsPending(Run(ex, cs).stops.orders, id)
    ensures Tightened(ex.stops.orders[id], Run(ex, cs).stops.orders[id])
  {
    RunRatchets(ex, cs);
  }
}
