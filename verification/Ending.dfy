/** When a call of the exchange returns at all: exactly when every matching loop on its way ends. */
module Ending {
  import opened Types
  import opened OrderModel
  import opened SideModel
  import opened BookModel
  import opened PriceTime
  import opened MatchModel
  import opened Matching
  import opened StopModel
  import opened StopTriggers
  import opened StopTrailing
  import opened ExchangeModel
  import opened Submission
  import opened ExchangeSafety
  import opened ExchangeRuns

  // ---- what must end -------------------------------------------------------------

  ghost predicate SubmitEnds(ex: ExchangeState, s: Side, price: Price, quantity: nat, tif: TimeInForce,
                             owner: Option<nat>)
  {
    || FokRejected(ex.book, s, price, quantity, tif)
    || Terminates(Start(CreateOrder(ex.book, s, price, quantity, tif).0,
                        Incoming(ex.book, s, price, quantity, tif, owner)), ex.policy)
  }

  ghost predicate SubmitStopEnds(ex: ExchangeState, o: StopOrder) {
    match o.limitPrice
    case Some(limit) => SubmitEnds(ex, o.side, limit, o.quantity, o.tif, None)
    case None => SubmitEnds(ex, o.side, MarketPrice(o.side), o.quantity, IOC, None)
  }

  ghost predicate SubmitStopsEnd(ex: ExchangeState, stops: seq<StopOrder>)
    decreases |stops|
  {
    stops == [] || (SubmitStopEnds(ex, stops[0]) && SubmitStopsEnd(SubmitStop(ex, stops[0]).0, stops[1..]))
  }

  ghost predicate RoundEnds(ex: ExchangeState) {
    ex.last.Some? ==>
      var (fired, hit) := FireAt(ex, ex.last.value);
      SubmitStopsEnd(fired, hit)
  }

  // The rounds that run, of at most `n`, all end.
  ghost predicate CascadeEnds(ex: ExchangeState, n: nat)
    decreases n
  {
    n == 0 || (RoundEnds(ex) && (CascadeRound(ex).again ==> CascadeEnds(CascadeRound(ex).next, n - 1)))
  }

  ghost predicate AfterTradesEnds(ex: ExchangeState, trades: seq<Trade>) {
    trades == [] || CascadeEnds(ex.(last := LastPrice(trades)), MAX_CASCADE_DEPTH)
  }

  ghost predicate SubmitAndFireEnds(ex: ExchangeState, s: Side, price: Price, quantity: nat, tif: TimeInForce,
                                    owner: Option<nat>)
  {
    && SubmitEnds(ex, s, price, quantity, tif, owner)
    && var (next, r) := Submit(ex, s, price, quantity, tif, owner); AfterTradesEnds(next, r.trades)
  }

  ghost predicate ModifyEnds(ex: ExchangeState, id: OrderId, newPrice: Price, newQuantity: nat) {
    newQuantity > 0 && id in ex.book.orders && ex.book.orders[id].IsActive() ==>
      SubmitEnds(ex.(book := CancelOrder(ex.book, id).0), ex.book.orders[id].side, newPrice, newQuantity,
                 ex.book.orders[id].tif, None)
  }

  ghost predicate InsertStopEnds(ex: ExchangeState, s: Side, stopPrice: Price, limit: Option<Price>, quantity: nat,
                                 tif: TimeInForce, trail: Option<TrailMethod>)
  {
    var o := NewStop(ex.book, s, stopPrice, limit, quantity, tif, trail);
    trail.None? && ex.last.Some? && Triggerable(o, ex.last.value) ==>
      CascadeEnds(PlaceStop(ex, o), MAX_CASCADE_DEPTH)
  }

  // What the public method and the replayed event have in common.
  ghost predicate EventEnds(ex: ExchangeState, e: Event) {
    var logged := Log(ex, e);
    match e
    case LimitEvent(s, price, quantity, tif) => SubmitAndFireEnds(logged, s, price, quantity, tif, None)
    case MarketEvent(s, quantity) => SubmitAndFireEnds(logged, s, MarketPrice(s), quantity, IOC, None)
    case CancelEvent(id) => true
    case ModifyEvent(id, newPrice, newQuantity) => ModifyEnds(logged, id, newPrice, newQuantity)
    case StopMarketEvent(s, stop, quantity) => InsertStopEnds(logged, s, stop, None, quantity, GTC, None)
    case StopLimitEvent(s, stop, limit, quantity, tif) =>
      InsertStopEnds(logged, s, stop, Some(limit), quantity, tif, None)
    case TrailingMarketEvent(s, stop, quantity, trail) =>
      InsertStopEnds(logged, s, stop, None, quantity, GTC, Some(trail))
    case TrailingLimitEvent(s, stop, limit, quantity, tif, trail) =>
      InsertStopEnds(logged, s, stop, Some(limit), quantity, tif, Some(trail))
  }

  // Replaying a modify also fires stops.
  ghost predicate ApplyEnds(ex: ExchangeState, e: Event) {
    && EventEnds(ex, e)
    && (e.ModifyEvent? ==>
          var (next, r) := ModifyInternal(Log(ex, e), e.id, e.newPrice, e.newQuantity);
          AfterTradesEnds(next, ModifyTrades(r)))
  }

  ghost predicate ReplayEnds(ex: ExchangeState, es: seq<Event>)
    decreases |es|
  {
    es == [] || (ApplyEnds(ex, es[0]) && ReplayEnds(Apply(ex, es[0]), es[1..]))
  }

  // ---- guarded calls return --------------------------------------------------------

  /** On a good exchange a submission ends exactly when it is rejected or its self-trade cancels are safe. */
  lemma SubmitEndsIffSafe(ex: ExchangeState, s: Side, price: Price, quantity: nat, tif: TimeInForce, owner: Option<nat>)
    requires GoodExchange(ex)
    ensures SubmitEnds(ex, s, price, quantity, tif, owner) <==>
            FokRejected(ex.book, s, price, quantity, tif) ||
            SubmitSafe(ex.book, s, price, quantity, owner, ex.policy)
  {
    Created(ex.book, s, price, quantity, tif, owner);
    MatchingEndsIffSafe(CreateOrder(ex.book, s, price, quantity, tif).0,
                        Incoming(ex.book, s, price, quantity, tif, owner), ex.policy);
  }

  lemma UntaggedEnds(ex: ExchangeState, s: Side, price: Price, quantity: nat, tif: TimeInForce)
    requires GoodExchange(ex)
    ensures SubmitEnds(ex, s, price, quantity, tif, None)
  {
    UntaggedIsSafe(ex.book, s, price, quantity, ex.policy);
    SubmitEndsIffSafe(ex, s, price, quantity, tif, None);
  }

  lemma {:induction false} StopsEnd(ex: ExchangeState, stops: seq<StopOrder>)
    requires GoodExchange(ex)
    ensures SubmitStopsEnd(ex, stops)
    decreases |stops|
  {
    hide GoodExchange, SubmitEnds;
    if stops != [] {
      var o := stops[0];
      UntaggedEnds(ex, o.side, if o.limitPrice.Some? then o.limitPrice.value else MarketPrice(o.side), o.quantity,
                   if o.limitPrice.Some? then o.tif else IOC);
      SubmitStopKeeps(ex, o);
      StopsEnd(SubmitStop(ex, o).0, stops[1..]);
    }
  }

  lemma GoodRoundEnds(ex: ExchangeState)
    requires GoodExchange(ex) && ex.last.Some?
    ensures RoundEnds(ex)
  {
    hide GoodExchange, SubmitStopsEnd, FireAt;
    FireAtKeeps(ex, ex.last.value);
    StopsEnd(FireAt(ex, ex.last.value).0, FireAt(ex, ex.last.value).1);
  }

  /** A cascade on a good exchange ends. */
  lemma {:induction false} GoodCascadeEnds(ex: ExchangeState, n: nat)
    requires GoodExchange(ex) && ex.last.Some?
    ensures CascadeEnds(ex, n)
    decreases n
  {
    hide GoodExchange, RoundEnds, CascadeRound;
    if n > 0 {
      GoodRoundEnds(ex);
      RoundKeeps(ex);
      GoodCascadeEnds(CascadeRound(ex).next, n - 1);
    }
  }

  lemma TradesEnd(ex: ExchangeState, trades: seq<Trade>)
    requires GoodExchange(ex)
    ensures AfterTradesEnds(ex, trades)
  {
    hide GoodExchange, CascadeEnds;
    if trades != [] {
      RepricedIsGood(ex, LastPrice(trades));
      GoodCascadeEnds(ex.(last := LastPrice(trades)), MAX_CASCADE_DEPTH);
    }
  }

  lemma SafeSubmitEnds(ex: ExchangeState, s: Side, price: Price, quantity: nat, tif: TimeInForce, owner: Option<nat>)
    requires GoodExchange(ex) && SubmitSafe(ex.book, s, price, quantity, owner, ex.policy)
    ensures SubmitAndFireEnds(ex, s, price, quantity, tif, owner)
  {
    hide GoodExchange, SubmitSafe, SubmitEnds, AfterTradesEnds;
    SubmitEndsIffSafe(ex, s, price, quantity, tif, owner);
    SubmitKeeps(ex, s, price, quantity, tif, owner);
    var (next, r) := Submit(ex, s, price, quantity, tif, owner);
    TradesEnd(next, r.trades);
  }

  lemma GuardedModifyEnds(ex: ExchangeState, id: OrderId, newPrice: Price, newQuantity: nat)
    requires GoodExchange(ex) && (newQuantity == 0 || CancelGuard(ex, id))
    ensures ModifyEnds(ex, id, newPrice, newQuantity)
  {
    hide SubmitEnds;
    if newQuantity > 0 && id in ex.book.orders && ex.book.orders[id].IsActive() {
      CancelBookKeeps(ex, id);
      UntaggedEnds(ex.(book := CancelOrder(ex.book, id).0), ex.book.orders[id].side, newPrice, newQuantity,
                   ex.book.orders[id].tif);
    }
  }

  lemma PlacedEnds(ex: ExchangeState, s: Side, stopPrice: Price, limit: Option<Price>, quantity: nat,
                   tif: TimeInForce, trail: Option<TrailMethod>)
    requires GoodExchange(ex)
    ensures InsertStopEnds(ex, s, stopPrice, limit, quantity, tif, trail)
  {
    hide GoodExchange, CascadeEnds;
    var o := NewStop(ex.book, s, stopPrice, limit, quantity, tif, trail);
    PlaceStopKeeps(ex, o);
    if ex.last.Some? {
      GoodCascadeEnds(PlaceStop(ex, o), MAX_CASCADE_DEPTH);
    }
  }

  /** Every guarded public call and every guarded replayed event returns. */
  lemma GuardedEventEnds(ex: ExchangeState, e: Event)
    requires GoodExchange(ex) && EventGuard(ex, e)
    ensures ApplyEnds(ex, e)
  {
    hide GoodExchange, SubmitAndFireEnds, AfterTradesEnds, InsertStopEnds, ModifyEnds;
    var logged := Log(ex, e);
    LogKeeps(ex, e);
    match e
    case LimitEvent(s, price, quantity, tif) =>
      UntaggedIsSafe(logged.book, s, price, quantity, logged.policy);
      SafeSubmitEnds(logged, s, price, quantity, tif, None);
    case MarketEvent(s, quantity) =>
      UntaggedIsSafe(logged.book, s, MarketPrice(s), quantity, logged.policy);
      SafeSubmitEnds(logged, s, MarketPrice(s), quantity, IOC, None);
    case CancelEvent(id) =>
    case ModifyEvent(id, newPrice, newQuantity) =>
      GuardedModifyEnds(logged, id, newPrice, newQuantity);
      ModifyKeeps(logged, id, newPrice, newQuantity);
      var (next, r) := ModifyInternal(logged, id, newPrice, newQuantity);
      TradesEnd(next, ModifyTrades(r));
    case StopMarketEvent(s, stop, quantity) => PlacedEnds(logged, s, stop, None, quantity, GTC, None);
    case StopLimitEvent(s, stop, limit, quantity, tif) => PlacedEnds(logged, s, stop, Some(limit), quantity, tif, None);
    case TrailingMarketEvent(s, stop, quantity, trail) => PlacedEnds(logged, s, stop, None, quantity, GTC, Some(trail));
    case TrailingLimitEvent(s, stop, limit, quantity, tif, trail) =>
      PlacedEnds(logged, s, stop, Some(limit), quantity, tif, Some(trail));
  }

  // Cancels and modifies in the log go through accurate slots.
  ghost predicate ReplayGuarded(ex: ExchangeState, es: seq<Event>)
    decreases |es|
  {
    es == [] || (EventGuard(ex, es[0]) && ReplayGuarded(Apply(ex, es[0]), es[1..]))
  }

  /** Replaying a guarded log returns. */
  lemma {:induction false} GuardedReplayEnds(ex: ExchangeState, es: seq<Event>)
    requires GoodExchange(ex) && ReplayGuarded(ex, es)
    ensures ReplayEnds(ex, es)
    decreases |es|
  {
    hide GoodExchange, EventGuard, ApplyEnds, Apply;
    if es != [] {
      GuardedEventEnds(ex, es[0]);
      PerformKeeps(ex, es[0]);
      GuardedReplayEnds(Apply(ex, es[0]), es[1..]);
    }
  }
}
