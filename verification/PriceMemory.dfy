/** Every reachable stop book remembers the newest steps of one list of prices, so the closed form
    of a trailing stop applies to it. */
module PriceMemory {
  import opened Types
  import opened BookModel
  import opened PriceTime
  import opened StopModel
  import opened StopTriggers
  import opened StopTrailing
  import opened ExchangeModel
  import opened Submission
  import opened ExchangeSafety
  import opened ExchangeRuns
  import opened Ratchet
  import opened AveragedTrail

  ghost predicate Aware(ex: ExchangeState) {
    exists seen :: Remembers(ex.stops, seen)
  }

  predicate SameMemory(a: ExchangeState, b: ExchangeState) {
    b.stops.last == a.stops.last && b.stops.changes == a.stops.changes
  }

  lemma StaysAware(a: ExchangeState, b: ExchangeState)
    requires Aware(a) && SameMemory(a, b)
    ensures Aware(b)
  {
    var seen :| Remembers(a.stops, seen);
    assert Remembers(b.stops, seen);
  }

  lemma FireIsAware(ex: ExchangeState, p: Price)
    requires GoodExchange(ex) && Aware(ex)
    ensures Aware(FireAt(ex, p).0)
  {
    hide GoodExchange, Remembers, UpdateTrailing;
    GoodExchangeStops(ex);
    var seen :| Remembers(ex.stops, seen);
    UpdateRemembers(ex.stops, seen, p);
    var moved := ex.(stops := UpdateTrailing(ex.stops, p));
    assert Remembers(moved.stops, seen + [p]);
    StaysAware(moved, FireAt(ex, p).0);
  }

  lemma GoodExchangeStops(ex: ExchangeState)
    requires GoodExchange(ex)
    ensures GoodStops(ex.stops)
  {
  }

  lemma RoundIsAware(ex: ExchangeState)
    requires GoodExchange(ex) && ex.last.Some? && Aware(ex)
    ensures Aware(CascadeRound(ex).next)
  {
    hide GoodExchange, FireAt, Aware, SubmitStops;
    var p := ex.last.value;
    FireIsAware(ex, p);
    FireAtKeeps(ex, p);
    var (fired, hit) := FireAt(ex, p);
    SubmitStopsKeeps(fired, hit, None);
    StaysAware(fired, CascadeRound(ex).next);
  }

  lemma CascadeIsAware(ex: ExchangeState, n: nat)
    requires GoodExchange(ex) && ex.last.Some? && Aware(ex)
    ensures Aware(Cascade(ex, n))
  {
    hide GoodExchange, CascadeRound, Aware;
    var round := (e: ExchangeState) => CascadeRound(e);
    var inv := (e: ExchangeState) => GoodExchange(e) && e.last.Some? && Aware(e);
    forall e | inv(e) ensures inv(round(e).next) {
      RoundKeeps(e);
      RoundIsAware(e);
    }
    RoundsInvariant(round, inv, ex, n);
  }

  lemma AfterTradesIsAware(ex: ExchangeState, trades: seq<Trade>)
    requires GoodExchange(ex) && Aware(ex)
    ensures Aware(AfterTrades(ex, trades))
  {
    hide GoodExchange, Cascade, Aware;
    if trades != [] {
      var priced := ex.(last := LastPrice(trades));
      RepricedIsGood(ex, LastPrice(trades));
      StaysAware(ex, priced);
      CascadeIsAware(priced, MAX_CASCADE_DEPTH);
    }
  }

  lemma SubmitIsAware(ex: ExchangeState, s: Side, price: Price, quantity: nat, tif: TimeInForce, owner: Option<nat>)
    requires GoodExchange(ex) && Aware(ex) && SubmitSafe(ex.book, s, price, quantity, owner, ex.policy)
    ensures Aware(SubmitAndFire(ex, s, price, quantity, tif, owner).0)
  {
    hide GoodExchange, Submit, SubmitSafe, AfterTrades, Aware;
    SubmitKeeps(ex, s, price, quantity, tif, owner);
    var (next, r) := Submit(ex, s, price, quantity, tif, owner);
    StaysAware(ex, next);
    AfterTradesIsAware(next, r.trades);
  }

  lemma InsertIsAware(ex: ExchangeState, s: Side, stopPrice: Price, limit: Option<Price>, quantity: nat,
                      tif: TimeInForce, trail: Option<TrailMethod>)
    requires GoodExchange(ex) && Aware(ex)
    ensures Aware(InsertStop(ex, s, stopPrice, limit, quantity, tif, trail).0)
  {
    hide GoodExchange, Cascade, Aware;
    var o := NewStop(ex.book, s, stopPrice, limit, quantity, tif, trail);
    PlaceStopKeeps(ex, o);
    StaysAware(ex, PlaceStop(ex, o));
    if ex.last.Some? {
      CascadeIsAware(PlaceStop(ex, o), MAX_CASCADE_DEPTH);
    }
  }

  lemma CancelIsAware(ex: ExchangeState, id: OrderId)
    requires Aware(ex)
    ensures Aware(CancelInternal(ex, id).0)
  {
    hide Aware;
    StaysAware(ex, CancelInternal(ex, id).0);
  }

  lemma ModifyIsAware(ex: ExchangeState, id: OrderId, newPrice: Price, newQuantity: nat)
    requires Aware(ex)
    ensures Aware(ModifyInternal(ex, id, newPrice, newQuantity).0)
  {
    hide Aware;
    StaysAware(ex, ModifyInternal(ex, id, newPrice, newQuantity).0);
  }

  lemma EventIsAware(ex: ExchangeState, e: Event)
    requires GoodExchange(ex) && Aware(ex) && EventGuard(ex, e)
    ensures Aware(Perform(ex, e)) && Aware(Apply(ex, e))
  {
    hide GoodExchange, Aware, SubmitAndFire, AfterTrades, InsertStop, CancelInternal, ModifyInternal;
    var logged := Log(ex, e);
    LogKeeps(ex, e);
    StaysAware(ex, logged);
    match e {
      case LimitEvent(s, price, quantity, tif) =>
        UntaggedIsSafe(logged.book, s, price, quantity, logged.policy);
        SubmitIsAware(logged, s, price, quantity, tif, None);
        SubmitAndFireIs(logged, s, price, quantity, tif, None);
      case MarketEvent(s, quantity) =>
        UntaggedIsSafe(logged.book, s, MarketPrice(s), quantity, logged.policy);
        SubmitIsAware(logged, s, MarketPrice(s), quantity, IOC, None);
        SubmitAndFireIs(logged, s, MarketPrice(s), quantity, IOC, None);
      case CancelEvent(id) =>
        CancelIsAware(logged, id);
      case ModifyEvent(id, newPrice, newQuantity) =>
        ModifyIsAware(logged, id, newPrice, newQuantity);
        ModifyKeeps(logged, id, newPrice, newQuantity);
        var (next, r) := ModifyInternal(logged, id, newPrice, newQuantity);
        AfterTradesIsAware(next, ModifyTrades(r));
      case StopMarketEvent(s, stop, quantity) => InsertIsAware(logged, s, stop, None, quantity, GTC, None);
      case StopLimitEvent(s, stop, limit, quantity, tif) =>
        InsertIsAware(logged, s, stop, Some(limit), quantity, tif, None);
      case TrailingMarketEvent(s, stop, quantity, trail) =>
        InsertIsAware(logged, s, stop, None, quantity, GTC, Some(trail));
      case TrailingLimitEvent(s, stop, limit, quantity, tif, trail) =>
        InsertIsAware(logged, s, stop, Some(limit), quantity, tif, Some(trail));
    }
  }

  lemma DoIsAware(ex: ExchangeState, c: Command)
    requires GoodExchange(ex) && Aware(ex) && Guard(ex, c)
    ensures Aware(Do(ex, c))
  {
    hide GoodExchange, Aware, Perform, Apply, SubmitAndFire;
    match c
    case Public(e) => EventIsAware(ex, e);
    case ReplayOne(e) => EventIsAware(ex, e);
    case TaggedLimit(s, price, quantity, tif, owner) =>
      var e := LimitEvent(s, price, quantity, tif);
      LogKeeps(ex, e);
      StaysAware(ex, Log(ex, e));
      SubmitIsAware(Log(ex, e), s, price, quantity, tif, Some(owner));
    case _ => StaysAware(ex, Do(ex, c));
  }

  lemma {:induction false} RunIsAware(ex: ExchangeState, cs: seq<Command>)
    requires GoodExchange(ex) && Aware(ex) && Guarded(ex, cs)
    ensures Aware(Run(ex, cs))
    decreases |cs|
  {
    hide GoodExchange, Do, Guard, Aware;
    if cs != [] {
      DoKeeps(ex, cs[0]);
      DoIsAware(ex, cs[0]);
      RunIsAware(Do(ex, cs[0]), cs[1..]);
    }
  }

  /** After any guarded run from a new exchange the stop book remembers some list of prices: its last
      one, and the newest changes between them, at most ten thousand. */
  lemma ReachableRemembers(cs: seq<Command>)
    requires Guarded(NewExchange(), cs)
    ensures exists seen :: Remembers(Run(NewExchange(), cs).stops, seen)
  {
    hide GoodExchange;
    NewStopsRemember();
    assert Remembers(NewExchange().stops, []);
    NewExchangeIsGood();
    RunIsAware(NewExchange(), cs);
  }
}
