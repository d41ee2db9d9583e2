/** Whole runs of commands: every reachable exchange is good, as long as each cancel and
    each self-trade cancel goes through an accurate slot. */
module ExchangeRuns {
  import opened Types
  import opened PriceKeys
  import opened OrderModel
  import opened LevelModel
  import opened SideModel
  import opened BookModel
  import opened PriceTime
  import opened Matching
  import opened StopModel
  import opened StopTriggers
  import opened StopTrailing
  import opened ExchangeModel
  import opened Submission
  import opened ExchangeSafety

  datatype Command =
    | Public(event: Event)
    | TaggedLimit(side: Side, price: Price, quantity: nat, tif: TimeInForce, owner: nat)
    | ReplayOne(event: Event)
    | SetPolicy(policy: StpPolicy)
    | CompactBooks
    | ClearOrders
    | ClearTrades
    | ClearEvents

  ghost function Do(ex: ExchangeState, c: Command): ExchangeState {
    match c
    case Public(e) => Perform(ex, e)
    case TaggedLimit(s, price, quantity, tif, owner) => PerformTagged(ex, s, price, quantity, tif, owner)
    case ReplayOne(e) => Apply(ex, e)
    case SetPolicy(policy) => ex.(policy := policy)
    case CompactBooks => ex.(book := CompactBook(ex.book))
    case ClearOrders => ex.(stops := ClearStopHistory(ex.stops), book := ClearHistory(ex.book))
    case ClearTrades => ex.(trades := [])
    case ClearEvents => ex.(events := [])
  }

  // What a caller can check before a command.
  predicate CancelGuard(ex: ExchangeState, id: OrderId) {
    IsPending(ex.stops.orders, id) || id !in ex.book.orders || !ex.book.orders[id].IsActive() ||
    CancelSafe(ex.book, id)
  }

  predicate EventGuard(ex: ExchangeState, e: Event) {
    match e
    case CancelEvent(id) => CancelGuard(ex, id)
    case ModifyEvent(id, newPrice, newQuantity) => newQuantity == 0 || CancelGuard(ex, id)
    case _ => true
  }

  ghost predicate Guard(ex: ExchangeState, c: Command) {
    match c
    case Public(e) => EventGuard(ex, e)
    case ReplayOne(e) => EventGuard(ex, e)
    case TaggedLimit(s, price, quantity, tif, owner) =>
      SubmitSafe(ex.book, s, price, quantity, Some(owner), ex.policy)
    case _ => true
  }

  ghost function Run(ex: ExchangeState, cs: seq<Command>): ExchangeState
    decreases |cs|
  {
    if cs == [] then ex else Run(Do(ex, cs[0]), cs[1..])
  }

  ghost predicate Guarded(ex: ExchangeState, cs: seq<Command>)
    decreases |cs|
  {
    cs == [] || (Guard(ex, cs[0]) && Guarded(Do(ex, cs[0]), cs[1..]))
  }

  // ---- each command ---------------------------------------------------------

  lemma LogKeeps(ex: ExchangeState, e: Event)
    requires GoodExchange(ex)
    ensures GoodExchange(Log(ex, e))
  {
  }

  lemma AfterTradesKeeps(ex: ExchangeState, trades: seq<Trade>)
    requires GoodExchange(ex)
    ensures GoodExchange(AfterTrades(ex, trades))
    ensures AfterTrades(ex, trades).policy == ex.policy && AfterTrades(ex, trades).events == ex.events
  {
    if trades != [] {
      CascadeQuiets(ex.(last := LastPrice(trades)), MAX_CASCADE_DEPTH);
    }
  }

  lemma SubmitAndFireKeeps(ex: ExchangeState, s: Side, price: Price, quantity: nat, tif: TimeInForce,
                           owner: Option<nat>)
    requires GoodExchange(ex)
    requires SubmitSafe(ex.book, s, price, quantity, owner, ex.policy)
    ensures GoodExchange(SubmitAndFire(ex, s, price, quantity, tif, owner).0)
  {
    SubmitKeeps(ex, s, price, quantity, tif, owner);
    var (next, r) := Submit(ex, s, price, quantity, tif, owner);
    AfterTradesKeeps(next, r.trades);
  }

  lemma UntaggedSubmitKeeps(ex: ExchangeState, s: Side, price: Price, quantity: nat, tif: TimeInForce)
    requires GoodExchange(ex)
    ensures GoodExchange(SubmitAndFire(ex, s, price, quantity, tif, None).0)
  {
    UntaggedIsSafe(ex.book, s, price, quantity, ex.policy);
    SubmitAndFireKeeps(ex, s, price, quantity, tif, None);
  }

  lemma CancelBookKeeps(ex: ExchangeState, id: OrderId)
    requires GoodExchange(ex)
    requires id in ex.book.orders && ex.book.orders[id].IsActive() && CancelSafe(ex.book, id)
    ensures GoodExchange(ex.(book := CancelOrder(ex.book, id).0))
  {
    SafeCancelWorks(ex.book, id);
    FewerLevelsStayUncrossed(ex.book, CancelOrder(ex.book, id).0);
  }

  lemma CancelKeeps(ex: ExchangeState, id: OrderId)
    requires GoodExchange(ex) && CancelGuard(ex, id)
    ensures GoodExchange(CancelInternal(ex, id).0)
  {
    if IsPending(ex.stops.orders, id) {
      WithdrawKeeps(ex.stops, id);
    } else if id in ex.book.orders && ex.book.orders[id].IsActive() {
      CancelBookKeeps(ex, id);
    }
  }

  lemma ModifyKeeps(ex: ExchangeState, id: OrderId, newPrice: Price, newQuantity: nat)
    requires GoodExchange(ex) && (newQuantity == 0 || CancelGuard(ex, id))
    ensures GoodExchange(ModifyInternal(ex, id, newPrice, newQuantity).0)
  {
    if newQuantity != 0 && id in ex.book.orders && ex.book.orders[id].IsActive() {
      CancelBookKeeps(ex, id);
      var o, mid := ex.book.orders[id], ex.(book := CancelOrder(ex.book, id).0);
      UntaggedIsSafe(mid.book, o.side, newPrice, newQuantity, ex.policy);
      SubmitKeeps(mid, o.side, newPrice, newQuantity, o.tif, None);
    }
  }

  lemma PlaceStopKeeps(ex: ExchangeState, o: StopOrder)
    requires GoodExchange(ex)
    requires o.id == ex.book.nextOrderId && o.timestamp == ex.book.nextTimestamp && o.status.Pending?
    ensures GoodExchange(PlaceStop(ex, o))
  {
    InsertKeeps(ex.stops, o);
    var placed := PlaceStop(ex, o);
    assert placed.stops.orders == ex.stops.orders[o.id := o];
    assert GoodBook(placed.book);
  }

  lemma InsertStopKeeps(ex: ExchangeState, s: Side, stopPrice: Price, limit: Option<Price>, quantity: nat,
                        tif: TimeInForce, trail: Option<TrailMethod>)
    requires GoodExchange(ex)
    ensures GoodExchange(InsertStop(ex, s, stopPrice, limit, quantity, tif, trail).0)
  {
    var o := NewStop(ex.book, s, stopPrice, limit, quantity, tif, trail);
    PlaceStopKeeps(ex, o);
    if trail.None? && ex.last.Some? && Triggerable(o, ex.last.value) {
      CascadeQuiets(PlaceStop(ex, o), MAX_CASCADE_DEPTH);
    }
  }

  lemma PerformKeeps(ex: ExchangeState, e: Event)
    requires GoodExchange(ex) && EventGuard(ex, e)
    ensures GoodExchange(Perform(ex, e)) && GoodExchange(Apply(ex, e))
  {
    var logged := Log(ex, e);
    LogKeeps(ex, e);
    match e
    case LimitEvent(s, price, quantity, tif) => UntaggedSubmitKeeps(logged, s, price, quantity, tif);
    case MarketEvent(s, quantity) => UntaggedSubmitKeeps(logged, s, MarketPrice(s), quantity, IOC);
    case CancelEvent(id) => CancelKeeps(logged, id);
    case ModifyEvent(id, newPrice, newQuantity) =>
      ModifyKeeps(logged, id, newPrice, newQuantity);
      var (next, r) := ModifyInternal(logged, id, newPrice, newQuantity);
      AfterTradesKeeps(next, ModifyTrades(r));
    case StopMarketEvent(s, stop, quantity) => InsertStopKeeps(logged, s, stop, None, quantity, GTC, None);
    case StopLimitEvent(s, stop, limit, quantity, tif) =>
      InsertStopKeeps(logged, s, stop, Some(limit), quantity, tif, None);
    case TrailingMarketEvent(s, stop, quantity, trail) =>
      InsertStopKeeps(logged, s, stop, None, quantity, GTC, Some(trail));
    case TrailingLimitEvent(s, stop, limit, quantity, tif, trail) =>
      InsertStopKeeps(logged, s, stop, Some(limit), quantity, tif, Some(trail));
  }

  lemma CompactSideKeeps(sv: SideState, s: Side, orders: OrderMap)
    requires GoodSide(sv, s, orders)
    ensures GoodSide(CompactSide(sv), s, orders)
    ensures CompactSide(sv).levels.Keys == sv.levels.Keys
    ensures Live(CompactSide(sv), orders) == Live(sv, orders)
  {
    var after := CompactSide(sv);
    assert after.levels.Keys == sv.levels.Keys;
    forall p | p in sv.levels
      ensures GoodLevel(after.levels[p], s, p, orders) && At(after, p, orders) == At(sv, p, orders)
    {
      assert GoodLevel(sv.levels[p], s, p, orders);
      CompactLevelKeeps(sv.levels[p], s, p, orders);
    }
    SortedKeysFacts(s, sv.levels.Keys);
    FlatFrame(SortedKeys(s, sv.levels.Keys), sv, orders, after, orders);
  }

  lemma CompactLevelKeeps(l: LevelState, s: Side, p: Price, orders: OrderMap)
    requires GoodLevel(l, s, p, orders)
    ensures GoodLevel(Compact(l), s, p, orders)
    ensures QueueOf(Compact(l).orders, orders) == QueueOf(l.orders, orders)
  {
    QueueOfLive(l.orders, orders);
    LiveOfLive(l.orders);
    LiveQueueGood(l.orders, s, p, orders);
  }

  lemma {:induction false} LiveQueueGood(queue: seq<OrderId>, s: Side, p: Price, orders: OrderMap)
    requires GoodQueue(queue, s, p, orders)
    ensures GoodQueue(LiveIds(queue), s, p, orders)
  {
    if queue != [] {
      var tail := queue[1..];
      assert GoodQueue(tail, s, p, orders);
      LiveQueueGood(tail, s, p, orders);
      LiveLength(tail);
      var rest := LiveIds(tail);
      if queue[0] == TOMBSTONE {
        assert LiveIds(queue) == rest;
      } else {
        forall k | 0 <= k < |rest| ensures queue[0] < rest[k] {
          assert rest[k] in tail;
          var j :| 0 <= j < |tail| && tail[j] == rest[k];
          assert queue[j + 1] == rest[k];
        }
        assert LiveIds(queue) == [queue[0]] + rest;
      }
    }
  }

  lemma ClearSideKeeps(sv: SideState, s: Side, orders: OrderMap)
    requires GoodSide(sv, s, orders)
    ensures var kept := map id | id in orders && orders[id].IsActive() :: orders[id];
            GoodSide(sv, s, kept) && Live(sv, kept) == Live(sv, orders)
  {
    var kept := map id | id in orders && orders[id].IsActive() :: orders[id];
    forall q, x | q in sv.levels && x in sv.levels[q].orders && x != TOMBSTONE
      ensures x in orders && x in kept && orders[x] == kept[x]
    {
      assert GoodLevel(sv.levels[q], s, q, orders);
      var k :| 0 <= k < |sv.levels[q].orders| && sv.levels[q].orders[k] == x;
      assert Rests(orders[x], x, s, q);
    }
    SideFrame(sv, s, orders, kept);
  }

  lemma CompactKeeps(ex: ExchangeState)
    requires GoodExchange(ex)
    ensures GoodExchange(Do(ex, CompactBooks)) && View(CompactBook(ex.book)) == View(ex.book)
  {
    CompactSideKeeps(ex.book.bids, Buy, ex.book.orders);
    CompactSideKeeps(ex.book.asks, Sell, ex.book.orders);
    FewerLevelsStayUncrossed(ex.book, CompactBook(ex.book));
  }

  lemma ClearOrdersKeeps(ex: ExchangeState)
    requires GoodExchange(ex)
    ensures GoodExchange(Do(ex, ClearOrders)) && View(ClearHistory(ex.book)) == View(ex.book)
  {
    ClearSideKeeps(ex.book.bids, Buy, ex.book.orders);
    ClearSideKeeps(ex.book.asks, Sell, ex.book.orders);
    ClearKeeps(ex.stops);
  }

  lemma DoKeeps(ex: ExchangeState, c: Command)
    requires GoodExchange(ex) && Guard(ex, c)
    ensures GoodExchange(Do(ex, c))
  {
    match c
    case Public(e) => PerformKeeps(ex, e);
    case ReplayOne(e) => PerformKeeps(ex, e);
    case TaggedLimit(s, price, quantity, tif, owner) =>
      LogKeeps(ex, LimitEvent(s, price, quantity, tif));
      SubmitAndFireKeeps(Log(ex, LimitEvent(s, price, quantity, tif)), s, price, quantity, tif, Some(owner));
    case CompactBooks => CompactKeeps(ex);
    case ClearOrders => ClearOrdersKeeps(ex);
    case _ =>
  }

  lemma {:induction false} RunKeeps(ex: ExchangeState, cs: seq<Command>)
    requires GoodExchange(ex) && Guarded(ex, cs)
    ensures GoodExchange(Run(ex, cs))
    decreases |cs|
  {
    if cs != [] {
      DoKeeps(ex, cs[0]);
      RunKeeps(Do(ex, cs[0]), cs[1..]);
    }
  }

  /** Every exchange reachable by a guarded run is well formed: both sides sorted and
      exact, the best bid below the best ask, and the stop index exact. */
  lemma ReachableIsGood(cs: seq<Command>)
    requires Guarded(NewExchange(), cs)
    ensures var ex := Run(NewExchange(), cs);
            && GoodExchange(ex)
            && (ex.book.bids.best.Some? && ex.book.asks.best.Some? ==>
                  ex.book.bids.best.value < ex.book.asks.best.value)
  {
    NewExchangeIsGood();
    RunKeeps(NewExchange(), cs);
    var ex := Run(NewExchange(), cs);
    if ex.book.bids.best.Some? && ex.book.asks.best.Some? {
      assert ex.book.bids.best.value in ex.book.bids.levels && ex.book.asks.best.value in ex.book.asks.levels;
    }
  }
}
