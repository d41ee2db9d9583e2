/** The whole exchange against a naive one: two sorted lists and a bag of stops, with no
    levels, no tombstones, no caches and no price index. */
module NaiveExchange {
  import opened Types
  import opened PriceKeys
  import opened OrderModel
  import opened SideModel
  import opened BookModel
  import opened PriceTime
  import opened Matching
  import opened Liquidity
  import opened StopModel
  import opened StopTriggers
  import opened StopTrailing
  import opened ExchangeModel
  import opened Submission
  import opened ExchangeSafety
  import opened ExchangeRuns
  import opened Guarantees

  datatype NaiveState = NaiveState(
    book: NaiveBook,
    trades: seq<Trade>,
    stops: StopMap,
    changes: seq<int>,
    seen: Option<Price>,
    last: Option<Price>,
    policy: StpPolicy,
    nextOrderId: nat,
    nextTradeId: nat,
    nextTimestamp: nat)

  ghost function Abstract(ex: ExchangeState): NaiveState {
    NaiveState(View(ex.book), ex.trades, ex.stops.orders, ex.stops.changes, ex.stops.last, ex.last, ex.policy,
               ex.book.nextOrderId, ex.book.nextTradeId, ex.book.nextTimestamp)
  }

  // ---- the naive exchange ----------------------------------------------------------

  function NaiveSubmit(ns: NaiveState, s: Side, price: Price, quantity: nat, tif: TimeInForce, owner: Option<nat>)
    : (NaiveState, seq<Trade>)
  {
    var n := SubmitNaively(ns.book, ns.nextOrderId, s, price, quantity, tif, owner, ns.policy);
    var trades := TradesOf(n.fills, ns.nextTradeId, ns.nextTimestamp + 1, ns.nextOrderId, s);
    (ns.(book := n.book,
         trades := ns.trades + trades,
         nextOrderId := ns.nextOrderId + 1,
         nextTradeId := ns.nextTradeId + |n.fills|,
         nextTimestamp := ns.nextTimestamp + 1 + |n.fills|), trades)
  }

  predicate IsEarliest(orders: StopMap, ids: set<OrderId>, id: OrderId) {
    id in ids && id in orders &&
    forall j | j in ids && j in orders && j != id :: orders[id].timestamp < orders[j].timestamp
  }

  // The named stops in submission order.
  ghost function ByTime(orders: StopMap, ids: set<OrderId>): seq<StopOrder>
    decreases |ids|
  {
    if exists id :: IsEarliest(orders, ids, id) then
      var id :| IsEarliest(orders, ids, id);
      [orders[id]] + ByTime(orders, ids - {id})
    else []
  }

  function NaiveMoved(orders: StopMap, p: Price, changes: seq<int>): StopMap {
    map id | id in orders :: if IsTrailing(orders, id) then Moved(orders[id], p, changes) else orders[id]
  }

  // Every pending trailing stop moves, then every reached stop fires.
  ghost function NaiveFire(ns: NaiveState, p: Price): (NaiveState, seq<StopOrder>) {
    var changes := if ns.seen.Some? then Capped(ns.changes + [Abs(p - ns.seen.value)]) else ns.changes;
    var moved := NaiveMoved(ns.stops, p, changes);
    var fired := Fire(moved, TriggerableIds(moved, p));
    (ns.(stops := fired, changes := changes, seen := Some(p)), ByTime(fired, TriggerableIds(moved, p)))
  }

  function NaiveSubmitStop(ns: NaiveState, o: StopOrder): (NaiveState, seq<Trade>) {
    match o.limitPrice
    case Some(limit) => NaiveSubmit(ns, o.side, limit, o.quantity, o.tif, None)
    case None => NaiveSubmit(ns, o.side, MarketPrice(o.side), o.quantity, IOC, None)
  }

  function NaiveSubmitStops(ns: NaiveState, stops: seq<StopOrder>, newLast: Option<Price>)
    : (NaiveState, Option<Price>)
    decreases |stops|
  {
    if stops == [] then (ns, newLast)
    else
      var (next, trades) := NaiveSubmitStop(ns, stops[0]);
      NaiveSubmitStops(next, stops[1..], if trades == [] then newLast else LastPrice(trades))
  }

  ghost function NaiveRound(ns: NaiveState): RoundResult<NaiveState> {
    if ns.last.None? then RoundResult(ns, false)
    else
      var (fired, hit) := NaiveFire(ns, ns.last.value);
      if hit == [] then RoundResult(fired, false)
      else
        var (next, newLast) := NaiveSubmitStops(fired, hit, None);
        if newLast.None? then RoundResult(next, false) else RoundResult(next.(last := newLast), true)
  }

  ghost function NaiveCascade(ns: NaiveState): NaiveState {
    Rounds(e => NaiveRound(e), ns, MAX_CASCADE_DEPTH)
  }

  ghost function NaiveAfterTrades(ns: NaiveState, trades: seq<Trade>): NaiveState {
    if trades == [] then ns else NaiveCascade(ns.(last := LastPrice(trades)))
  }

  ghost function NaiveSubmitAndFire(ns: NaiveState, s: Side, price: Price, quantity: nat, tif: TimeInForce,
                                    owner: Option<nat>): NaiveState
  {
    var r := NaiveSubmit(ns, s, price, quantity, tif, owner);
    NaiveAfterTrades(r.0, r.1)
  }

  function NaiveRemove(nb: NaiveBook, id: OrderId): NaiveBook {
    NaiveBook(Without(nb.bids, id), Without(nb.asks, id))
  }

  function NaiveCancel(ns: NaiveState, id: OrderId): NaiveState {
    if IsPending(ns.stops, id) then ns.(stops := ns.stops[id := ns.stops[id].(status := Withdrawn)])
    else ns.(book := NaiveRemove(ns.book, id))
  }

  ghost predicate Lists(live: seq<Resting>, id: OrderId) {
    exists r | r in live :: r.id == id
  }

  // Cancel and replace: only what rests can be replaced, and it goes to the back.
  ghost function NaiveModify(ns: NaiveState, id: OrderId, newPrice: Price, newQuantity: nat)
    : (NaiveState, seq<Trade>)
  {
    if newQuantity == 0 || (!Lists(ns.book.bids, id) && !Lists(ns.book.asks, id)) then (ns, [])
    else
      NaiveSubmit(ns.(book := NaiveRemove(ns.book, id)), if Lists(ns.book.bids, id) then Buy else Sell,
                  newPrice, newQuantity, GTC, None)
  }

  function NaivePlace(ns: NaiveState, o: StopOrder): NaiveState {
    ns.(stops := ns.stops[o.id := o], nextOrderId := ns.nextOrderId + 1, nextTimestamp := ns.nextTimestamp + 1)
  }

  ghost function NaiveInsertStop(ns: NaiveState, s: Side, stopPrice: Price, limit: Option<Price>, quantity: nat,
                                 tif: TimeInForce, trail: Option<TrailMethod>): NaiveState
  {
    var o := StopOrder(ns.nextOrderId, s, stopPrice, limit, quantity, tif, ns.nextTimestamp, Pending, trail, None);
    var placed := NaivePlace(ns, o);
    if trail.None? && ns.last.Some? && Triggerable(o, ns.last.value) then NaiveCascade(placed) else placed
  }

  // `replay` says whether a modify that trades fires stops.
  ghost function NaiveEvent(ns: NaiveState, e: Event, replay: bool): NaiveState {
    match e
    case LimitEvent(s, price, quantity, tif) => NaiveSubmitAndFire(ns, s, price, quantity, tif, None)
    case MarketEvent(s, quantity) => NaiveSubmitAndFire(ns, s, MarketPrice(s), quantity, IOC, None)
    case CancelEvent(id) => NaiveCancel(ns, id)
    case ModifyEvent(id, newPrice, newQuantity) =>
      var r := NaiveModify(ns, id, newPrice, newQuantity);
      if replay then NaiveAfterTrades(r.0, r.1) else r.0
    case StopMarketEvent(s, stop, quantity) => NaiveInsertStop(ns, s, stop, None, quantity, GTC, None)
    case StopLimitEvent(s, stop, limit, quantity, tif) => NaiveInsertStop(ns, s, stop, Some(limit), quantity, tif, None)
    case TrailingMarketEvent(s, stop, quantity, trail) => NaiveInsertStop(ns, s, stop, None, quantity, GTC, Some(trail))
    case TrailingLimitEvent(s, stop, limit, quantity, tif, trail) =>
      NaiveInsertStop(ns, s, stop, Some(limit), quantity, tif, Some(trail))
  }

  ghost function NaiveDo(ns: NaiveState, c: Command): NaiveState {
    match c
    case Public(e) => NaiveEvent(ns, e, false)
    case ReplayOne(e) => NaiveEvent(ns, e, true)
    case TaggedLimit(s, price, quantity, tif, owner) => NaiveSubmitAndFire(ns, s, price, quantity, tif, Some(owner))
    case SetPolicy(policy) => ns.(policy := policy)
    case CompactBooks => ns
    case ClearOrders => ns.(stops := map id | id in ns.stops && ns.stops[id].status.Pending? :: ns.stops[id])
    case ClearTrades => ns.(trades := [])
    case ClearEvents => ns
  }

  ghost function NaiveRun(ns: NaiveState, cs: seq<Command>): NaiveState
    decreases |cs|
  {
    if cs == [] then ns else NaiveRun(NaiveDo(ns, cs[0]), cs[1..])
  }

  // ---- submitting -----------------------------------------------------------------

  lemma SubmitCounts(ex: ExchangeState, s: Side, price: Price, quantity: nat, tif: TimeInForce, owner: Option<nat>)
    requires GoodExchange(ex)
    requires SubmitSafe(ex.book, s, price, quantity, owner, ex.policy)
    ensures var next := Submit(ex, s, price, quantity, tif, owner).0.book;
            var n := SubmitNaively(View(ex.book), ex.book.nextOrderId, s, price, quantity, tif, owner, ex.policy);
            && next.nextTradeId == ex.book.nextTradeId + |n.fills|
            && next.nextTimestamp == ex.book.nextTimestamp + 1 + |n.fills|
  {
    Available(ex.book, s, price);
    if !FokRejected(ex.book, s, price, quantity, tif) {
      MatchedAgrees(ex, s, price, quantity, tif, owner);
    }
  }

  lemma SubmitRefines(ex: ExchangeState, s: Side, price: Price, quantity: nat, tif: TimeInForce, owner: Option<nat>)
    requires GoodExchange(ex)
    requires SubmitSafe(ex.book, s, price, quantity, owner, ex.policy)
    ensures NaiveSubmit(Abstract(ex), s, price, quantity, tif, owner) ==
            (Abstract(Submit(ex, s, price, quantity, tif, owner).0),
             Submit(ex, s, price, quantity, tif, owner).1.trades)
  {
    hide Greedy, Uncrossed, TakerYields, TradesOf, FokRejected, Reaches, GoodSide, InsertByPriority, SubmitNaively;
    var (next, r) := Submit(ex, s, price, quantity, tif, owner);
    assert next == ex.(book := next.book, trades := ex.trades + r.trades)
           && next.book.nextOrderId == ex.book.nextOrderId + 1 by {
      SubmitKeeps(ex, s, price, quantity, tif, owner);
    }
    SubmitIsNaive(ex, s, price, quantity, tif, owner);
    SubmitCounts(ex, s, price, quantity, tif, owner);
  }

  lemma SubmitStopRefines(ex: ExchangeState, o: StopOrder)
    requires GoodExchange(ex)
    ensures var (next, r) := SubmitStop(ex, o);
            NaiveSubmitStop(Abstract(ex), o) == (Abstract(next), r.trades)
  {
    var price := if o.limitPrice.Some? then o.limitPrice.value else MarketPrice(o.side);
    UntaggedIsSafe(ex.book, o.side, price, o.quantity, ex.policy);
    SubmitRefines(ex, o.side, price, o.quantity, if o.limitPrice.Some? then o.tif else IOC, None);
  }

  lemma {:induction false} SubmitStopsRefines(ex: ExchangeState, stops: seq<StopOrder>, newLast: Option<Price>)
    requires GoodExchange(ex)
    ensures var (next, last) := SubmitStops(ex, stops, newLast);
            NaiveSubmitStops(Abstract(ex), stops, newLast) == (Abstract(next), last)
    decreases |stops|
  {
    if stops != [] {
      SubmitStopRefines(ex, stops[0]);
      SubmitStopKeeps(ex, stops[0]);
      var (next, r) := SubmitStop(ex, stops[0]);
      SubmitStopsRefines(next, stops[1..], if r.trades == [] then newLast else LastPrice(r.trades));
    }
  }

  // ---- the cascade -------------------------------------------------------------------

  // `stops` lists exactly the stored orders named by `ids`.
  ghost predicate ListsAll(orders: StopMap, ids: set<OrderId>, stops: seq<StopOrder>) {
    && (forall o | o in stops :: o.id in ids && o.id in orders && orders[o.id] == o)
    && (forall id | id in ids :: id in orders && orders[id].id == id && orders[id] in stops)
  }

  lemma FirstIsEarliest(orders: StopMap, ids: set<OrderId>, stops: seq<StopOrder>)
    requires StrictlyByTime(stops) && ListsAll(orders, ids, stops) && stops != []
    ensures forall id :: IsEarliest(orders, ids, id) <==> id == stops[0].id
    ensures ListsAll(orders, ids - {stops[0].id}, stops[1..])
  {
    var first, tail := stops[0], stops[1..];
    assert first in stops;
    forall j | j in ids && j != first.id
      ensures first.timestamp < orders[j].timestamp && orders[j] in tail
    {
      var k :| 0 <= k < |stops| && stops[k] == orders[j];
      assert tail[k - 1] == orders[j];
    }
    assert IsEarliest(orders, ids, first.id);
    forall o | o in tail ensures o.id in ids - {first.id} {
      var k :| 0 <= k < |tail| && tail[k] == o;
      assert stops[k + 1] == o;
    }
  }

  lemma {:induction false} ByTimeIs(orders: StopMap, ids: set<OrderId>, stops: seq<StopOrder>)
    requires StrictlyByTime(stops) && ListsAll(orders, ids, stops)
    ensures ByTime(orders, ids) == stops
    decreases |stops|
  {
    if stops == [] {
      assert !exists id :: IsEarliest(orders, ids, id);
    } else {
      FirstIsEarliest(orders, ids, stops);
      assert IsEarliest(orders, ids, stops[0].id);
      ByTimeIs(orders, ids - {stops[0].id}, stops[1..]);
    }
  }

  lemma CollectIsNaive(b: StopState, p: Price)
    requires GoodStops(b)
    ensures CollectTriggered(b, p).1 == ByTime(CollectTriggered(b, p).0.orders, TriggerableIds(b.orders, p))
  {
    CollectExact(b, p);
    ByTimeIs(CollectTriggered(b, p).0.orders, TriggerableIds(b.orders, p), CollectTriggered(b, p).1);
  }

  lemma FireRoundIsNaive(b: StopState, p: Price)
    requires GoodStops(b)
    ensures var (after, hit) := FireRound(b, p);
            var moved := NaiveMoved(b.orders, p, ChangesAfter(b, p));
            && after.orders == Fire(moved, TriggerableIds(moved, p))
            && after.changes == ChangesAfter(b, p) && after.last == Some(p)
            && hit == ByTime(after.orders, TriggerableIds(moved, p))
  {
    UpdateExact(b, p);
    var moved := UpdateTrailing(b, p);
    assert moved.orders == NaiveMoved(b.orders, p, ChangesAfter(b, p));
    CollectExact(moved, p);
    CollectIsNaive(moved, p);
  }

  lemma FireRefines(ex: ExchangeState, p: Price)
    requires GoodExchange(ex)
    ensures NaiveFire(Abstract(ex), p) == (Abstract(FireAt(ex, p).0), FireAt(ex, p).1)
  {
    FireRoundIsNaive(ex.stops, p);
  }

  lemma RoundRefines(ex: ExchangeState)
    requires GoodExchange(ex)
    ensures NaiveRound(Abstract(ex)) == RoundResult(Abstract(CascadeRound(ex).next), CascadeRound(ex).again)
  {
    hide GoodStops, GoodExchange;
    if ex.last.Some? {
      FireRefines(ex, ex.last.value);
      FireAtKeeps(ex, ex.last.value);
      SubmitStopsRefines(FireAt(ex, ex.last.value).0, FireAt(ex, ex.last.value).1, None);
    }
  }

  // Rounds that step together end together.
  lemma {:induction false} RoundsSimulate<S(!new), A>(round: S -> RoundResult<S>, naive: A -> RoundResult<A>,
                                                       abs: S -> A, inv: S -> bool, s: S, n: nat)
    requires inv(s)
    requires forall e | inv(e) && round(e).again :: inv(round(e).next)
    requires forall e | inv(e) :: naive(abs(e)) == RoundResult(abs(round(e).next), round(e).again)
    ensures abs(Rounds(round, s, n)) == Rounds(naive, abs(s), n)
    decreases n
  {
    if n > 0 && round(s).again {
      RoundsSimulate(round, naive, abs, inv, round(s).next, n - 1);
    }
  }

  lemma CascadeRefines(ex: ExchangeState)
    requires GoodExchange(ex) && ex.last.Some?
    ensures Abstract(ProcessTradeTriggers(ex)) == NaiveCascade(Abstract(ex))
  {
    var round, naive := (e: ExchangeState) => CascadeRound(e), (e: NaiveState) => NaiveRound(e);
    var abs := (e: ExchangeState) => Abstract(e);
    var inv := (e: ExchangeState) => GoodExchange(e) && e.last.Some?;
    forall e | inv(e)
      ensures round(e).again ==> inv(round(e).next)
      ensures naive(abs(e)) == RoundResult(abs(round(e).next), round(e).again)
    {
      RoundKeeps(e);
      RoundRefines(e);
    }
    RoundsSimulate(round, naive, abs, inv, ex, MAX_CASCADE_DEPTH);
  }
}
