/** The exchange: time in force, cancel and replace, stop cascades, and the event log. */
module ExchangeModel {
  import opened Types
  import opened OrderModel
  import opened SideModel
  import opened BookModel
  import opened MatchModel
  import opened StopModel

  datatype Event =
    | LimitEvent(side: Side, price: Price, quantity: nat, tif: TimeInForce)
    | MarketEvent(side: Side, quantity: nat)
    | CancelEvent(id: OrderId)
    | ModifyEvent(id: OrderId, newPrice: Price, newQuantity: nat)
    | StopMarketEvent(side: Side, stopPrice: Price, quantity: nat)
    | StopLimitEvent(side: Side, stopPrice: Price, limitPrice: Price, quantity: nat, tif: TimeInForce)
    | TrailingMarketEvent(side: Side, stopPrice: Price, quantity: nat, trail: TrailMethod)
    | TrailingLimitEvent(side: Side, stopPrice: Price, limitPrice: Price, quantity: nat,
                         tif: TimeInForce, trail: TrailMethod)

  datatype ExchangeState = ExchangeState(
    book: BookState,
    trades: seq<Trade>,
    stops: StopState,
    last: Option<Price>,
    policy: StpPolicy,
    events: seq<Event>)

  datatype SubmitResult = SubmitResult(
    orderId: OrderId,
    status: OrderStatus,
    trades: seq<Trade>,
    filled: nat,
    resting: nat,
    cancelled: int)

  datatype CancelError = CancelNotFound | CancelNotActive
  datatype CancelResult = CancelDone(quantity: nat) | CancelFailed(error: CancelError)

  datatype ModifyError = ModifyNotFound | ModifyNotActive | InvalidQuantity
  datatype ModifyResult =
    | ModifyDone(newId: OrderId, cancelled: nat, trades: seq<Trade>)
    | ModifyFailed(error: ModifyError)

  datatype StopSubmitResult = StopSubmitResult(orderId: OrderId, status: StopStatus)

  const MAX_CASCADE_DEPTH: nat := 100

  function NewExchange(): ExchangeState {
    ExchangeState(NewBook(), [], NewStops(), None, Off, [])
  }

  // ---- submitting -----------------------------------------------------------

  ghost function AvailableToFill(b: BookState, s: Side, price: Price): nat {
    QuantityAtOrBetter(b.SideOf(s.Opposite()), price)
  }

  function Incoming(b: BookState, s: Side, price: Price, quantity: nat, tif: TimeInForce, owner: Option<nat>)
    : OrderState
  {
    CreateOrder(b, s, price, quantity, tif).1.(owner := owner)
  }

  // Disposes of what matching left of the order.
  function Settle(ex: ExchangeState, end: MatchState, quantity: nat, tif: TimeInForce)
    : (ExchangeState, SubmitResult)
  {
    var o := end.incoming;
    var traded := ex.(book := end.book, trades := ex.trades + end.trades);
    if end.stpCancelled then
      var status := if o.filled > 0 then PartiallyFilled else Cancelled;
      (traded.(book := StoreOrder(end.book, o.(status := status))),
       SubmitResult(o.id, status, end.trades, o.filled, 0, quantity - o.filled))
    else if o.remaining == 0 then
      (traded.(book := StoreOrder(end.book, o.(status := Filled))),
       SubmitResult(o.id, Filled, end.trades, o.filled, 0, 0))
    else if tif.GTC? then
      var status := if o.filled > 0 then PartiallyFilled else New;
      (traded.(book := AddOrder(end.book, o.(status := status))),
       SubmitResult(o.id, status, end.trades, o.filled, o.remaining, 0))
    else
      var status := if o.filled > 0 then PartiallyFilled else Cancelled;
      (traded.(book := StoreOrder(end.book, o.(status := status))),
       SubmitResult(o.id, status, end.trades, o.filled, 0, o.remaining))
  }

  ghost predicate FokRejected(b: BookState, s: Side, price: Price, quantity: nat, tif: TimeInForce) {
    tif.FOK? && AvailableToFill(b, s, price) < quantity
  }

  ghost function Submit(ex: ExchangeState, s: Side, price: Price, quantity: nat, tif: TimeInForce,
                        owner: Option<nat>): (ExchangeState, SubmitResult)
  {
    var (b, o) := CreateOrder(ex.book, s, price, quantity, tif);
    if FokRejected(ex.book, s, price, quantity, tif) then
      (ex.(book := b), SubmitResult(o.id, Cancelled, [], 0, 0, quantity))
    else
      Settle(ex, Finish(Start(b, o.(owner := owner)), ex.policy), quantity, tif)
  }

  function MarketPrice(s: Side): Price {
    if s.Buy? then MAX_PRICE else MIN_PRICE
  }

  // ---- stop cascade ----------------------------------------------------------

  function LastPrice(trades: seq<Trade>): Option<Price> {
    if trades == [] then None else Some(trades[|trades| - 1].price)
  }

  ghost function SubmitStop(ex: ExchangeState, o: StopOrder): (ExchangeState, SubmitResult) {
    match o.limitPrice
    case Some(limit) => Submit(ex, o.side, limit, o.quantity, o.tif, None)
    case None => Submit(ex, o.side, MarketPrice(o.side), o.quantity, IOC, None)
  }

  // Submits fired stops in order; the second result is the last price they traded at.
  ghost function SubmitStops(ex: ExchangeState, stops: seq<StopOrder>, newLast: Option<Price>)
    : (ExchangeState, Option<Price>)
    decreases |stops|
  {
    if stops == [] then (ex, newLast)
    else
      var (next, r) := SubmitStop(ex, stops[0]);
      SubmitStops(next, stops[1..], if r.trades == [] then newLast else LastPrice(r.trades))
  }

  // The stop book after trailing stops moved to `p` and the triggerable ones left it.
  ghost function FireAt(ex: ExchangeState, p: Price): (ExchangeState, seq<StopOrder>) {
    var (stops, hit) := FireRound(ex.stops, p);
    (ex.(stops := stops), hit)
  }

  datatype RoundResult<S> = RoundResult(next: S, again: bool)

  // At most `n` rounds, stopping early when a round says so.
  ghost function Rounds<S>(round: S -> RoundResult<S>, s: S, n: nat): S
    decreases n
  {
    if n == 0 then s
    else if round(s).again then Rounds(round, round(s).next, n - 1)
    else round(s).next
  }

  // One round of the cascade, and whether another follows: only new trades make one.
  ghost function CascadeRound(ex: ExchangeState): RoundResult<ExchangeState> {
    if ex.last.None? then RoundResult(ex, false)
    else
      var (fired, hit) := FireAt(ex, ex.last.value);
      if hit == [] then RoundResult(fired, false)
      else
        var (next, newLast) := SubmitStops(fired, hit, None);
        if newLast.None? then RoundResult(next, false) else RoundResult(next.(last := newLast), true)
  }

  ghost function Cascade(ex: ExchangeState, n: nat): ExchangeState {
    Rounds(e => CascadeRound(e), ex, n)
  }

  ghost function ProcessTradeTriggers(ex: ExchangeState): ExchangeState {
    Cascade(ex, MAX_CASCADE_DEPTH)
  }

  // What every public submission does once its trades are known.
  ghost function AfterTrades(ex: ExchangeState, trades: seq<Trade>): ExchangeState {
    if trades == [] then ex else ProcessTradeTriggers(ex.(last := LastPrice(trades)))
  }

  ghost function SubmitAndFire(ex: ExchangeState, s: Side, price: Price, quantity: nat, tif: TimeInForce,
                               owner: Option<nat>): (ExchangeState, SubmitResult)
  {
    var (next, r) := Submit(ex, s, price, quantity, tif, owner);
    (AfterTrades(next, r.trades), r)
  }

  // ---- cancel, modify, stop submission ------------------------------------------

  ghost function CancelInternal(ex: ExchangeState, id: OrderId): (ExchangeState, CancelResult) {
    if IsPending(ex.stops.orders, id) then
      (ex.(stops := Withdraw(ex.stops, id).0), CancelDone(ex.stops.orders[id].quantity))
    else if id !in ex.book.orders then (ex, CancelFailed(CancelNotFound))
    else if !ex.book.orders[id].IsActive() then (ex, CancelFailed(CancelNotActive))
    else
      var (b, quantity) := CancelOrder(ex.book, id);
      (ex.(book := b), if quantity.Some? then CancelDone(quantity.value) else CancelFailed(CancelNotActive))
  }

  ghost function ModifyInternal(ex: ExchangeState, id: OrderId, newPrice: Price, newQuantity: nat)
    : (ExchangeState, ModifyResult)
  {
    if newQuantity == 0 then (ex, ModifyFailed(InvalidQuantity))
    else if id !in ex.book.orders then (ex, ModifyFailed(ModifyNotFound))
    else if !ex.book.orders[id].IsActive() then (ex, ModifyFailed(ModifyNotActive))
    else
      var o := ex.book.orders[id];
      var (b, quantity) := CancelOrder(ex.book, id);
      if quantity.None? then (ex, ModifyFailed(ModifyNotActive))
      else
        var (next, r) := Submit(ex.(book := b), o.side, newPrice, newQuantity, o.tif, None);
        (next, ModifyDone(r.orderId, quantity.value, r.trades))
  }

  function NewStop(b: BookState, s: Side, stopPrice: Price, limit: Option<Price>, quantity: nat,
                   tif: TimeInForce, trail: Option<TrailMethod>): StopOrder
  {
    StopOrder(b.nextOrderId, s, stopPrice, limit, quantity, tif, b.nextTimestamp, Pending, trail, None)
  }

  // The exchange once the stop is pending and its id and timestamp are used up.
  function PlaceStop(ex: ExchangeState, o: StopOrder): ExchangeState {
    ex.(book := ex.book.(nextOrderId := ex.book.nextOrderId + 1, nextTimestamp := ex.book.nextTimestamp + 1),
        stops := Insert(ex.stops, o))
  }

  ghost function InsertStop(ex: ExchangeState, s: Side, stopPrice: Price, limit: Option<Price>, quantity: nat,
                            tif: TimeInForce, trail: Option<TrailMethod>): (ExchangeState, StopSubmitResult)
  {
    var o := NewStop(ex.book, s, stopPrice, limit, quantity, tif, trail);
    var placed := PlaceStop(ex, o);
    if trail.None? && ex.last.Some? && Triggerable(o, ex.last.value) then
      var fired := ProcessTradeTriggers(placed);
      (fired, StopSubmitResult(o.id, if o.id in fired.stops.orders then fired.stops.orders[o.id].status else Triggered))
    else (placed, StopSubmitResult(o.id, Pending))
  }

  // ---- public commands and replay -------------------------------------------------

  function Log(ex: ExchangeState, e: Event): ExchangeState {
    ex.(events := ex.events + [e])
  }

  // The public method an event records.
  ghost function Perform(ex: ExchangeState, e: Event): ExchangeState {
    var logged := Log(ex, e);
    match e
    case LimitEvent(s, price, quantity, tif) => SubmitAndFire(logged, s, price, quantity, tif, None).0
    case MarketEvent(s, quantity) => SubmitAndFire(logged, s, MarketPrice(s), quantity, IOC, None).0
    case CancelEvent(id) => CancelInternal(logged, id).0
    case ModifyEvent(id, newPrice, newQuantity) => ModifyInternal(logged, id, newPrice, newQuantity).0
    case StopMarketEvent(s, stop, quantity) => InsertStop(logged, s, stop, None, quantity, GTC, None).0
    case StopLimitEvent(s, stop, limit, quantity, tif) =>
      InsertStop(logged, s, stop, Some(limit), quantity, tif, None).0
    case TrailingMarketEvent(s, stop, quantity, trail) =>
      InsertStop(logged, s, stop, None, quantity, GTC, Some(trail)).0
    case TrailingLimitEvent(s, stop, limit, quantity, tif, trail) =>
      InsertStop(logged, s, stop, Some(limit), quantity, tif, Some(trail)).0
  }

  // A limit order tagged with an owner: logged as an untagged one.
  ghost function PerformTagged(ex: ExchangeState, s: Side, price: Price, quantity: nat, tif: TimeInForce,
                               owner: nat): ExchangeState
  {
    SubmitAndFire(Log(ex, LimitEvent(s, price, quantity, tif)), s, price, quantity, tif, Some(owner)).0
  }

  function ModifyTrades(r: ModifyResult): seq<Trade> {
    if r.ModifyDone? then r.trades else []
  }

  /** Replaying one event. Unlike the public method, a modify that trades fires stops. */
  ghost function Apply(ex: ExchangeState, e: Event): ExchangeState {
    var logged := Log(ex, e);
    match e
    case LimitEvent(s, price, quantity, tif) =>
      var (next, r) := Submit(logged, s, price, quantity, tif, None);
      AfterTrades(next, r.trades)
    case MarketEvent(s, quantity) =>
      var (next, r) := Submit(logged, s, MarketPrice(s), quantity, IOC, None);
      AfterTrades(next, r.trades)
    case CancelEvent(id) => CancelInternal(logged, id).0
    case ModifyEvent(id, newPrice, newQuantity) =>
      var (next, r) := ModifyInternal(logged, id, newPrice, newQuantity);
      AfterTrades(next, ModifyTrades(r))
    case StopMarketEvent(s, stop, quantity) => InsertStop(logged, s, stop, None, quantity, GTC, None).0
    case StopLimitEvent(s, stop, limit, quantity, tif) =>
      InsertStop(logged, s, stop, Some(limit), quantity, tif, None).0
    case TrailingMarketEvent(s, stop, quantity, trail) =>
      InsertStop(logged, s, stop, None, quantity, GTC, Some(trail)).0
    case TrailingLimitEvent(s, stop, limit, quantity, tif, trail) =>
      InsertStop(logged, s, stop, Some(limit), quantity, tif, Some(trail)).0
  }

  ghost function ReplayFrom(ex: ExchangeState, events: seq<Event>): ExchangeState
    decreases |events|
  {
    if events == [] then ex else ReplayFrom(Apply(ex, events[0]), events[1..])
  }

  ghost function Replay(events: seq<Event>): ExchangeState {
    ReplayFrom(NewExchange(), events)
  }
}
