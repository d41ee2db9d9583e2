/** What cancel, modify and stop submissions answer, from the exchange before the call. */
module Answers {
  import opened Types
  import opened PriceKeys
  import opened OrderModel
  import opened SideModel
  import opened BookModel
  import opened PriceTime
  import opened Liquidity
  import opened StopModel
  import opened StopTriggers
  import opened StopTrailing
  import opened ExchangeModel
  import opened Submission
  import opened ExchangeSafety
  import opened ExchangeRuns
  import opened Guarantees
  import opened Dormant
  import opened NaiveExchange
  import opened NaiveRuns

  // ---- cancel ------------------------------------------------------------------------

  // An order on one of the two lists.
  ghost predicate RestsOn(b: BookState, s: Side, r: Resting) {
    r in View(b).On(s)
  }

  lemma RestingRecord(b: BookState, s: Side, r: Resting)
    requires GoodBook(b) && RestsOn(b, s, r)
    ensures r.id in b.orders && b.orders[r.id].IsActive()
    ensures b.orders[r.id].side == s && b.orders[r.id].remaining == r.quantity
    ensures b.orders[r.id].price == r.price && b.orders[r.id].owner == r.owner
  {
    ShownSide(b, s, r);
  }

  /** Cancelling an order that rests answers the quantity it had resting, and takes it and nothing else
      off the lists. */
  lemma CancelAnswersResting(ex: ExchangeState, s: Side, r: Resting)
    requires GoodExchange(ex) && CancelGuard(ex, r.id) && RestsOn(ex.book, s, r)
    ensures var (next, answer) := CancelInternal(ex, r.id);
            && answer == CancelDone(r.quantity)
            && View(next.book) == NaiveRemove(View(ex.book), r.id)
            && !Lists(View(next.book).On(s), r.id)
            && next == ex.(book := next.book)
  {
    hide GoodSide, GoodStops, Uncrossed;
    RestingRecord(ex.book, s, r);
    SafeCancelWorks(ex.book, r.id);
    UnlistedWithout(ex.book, s.Opposite(), r.id);
    WithoutGone(ex.book.LiveOn(s), r.id);
  }

  /** Cancelling a pending stop answers its quantity, and it can no longer fire. */
  lemma CancelAnswersStop(ex: ExchangeState, id: OrderId)
    requires GoodExchange(ex) && IsPending(ex.stops.orders, id)
    ensures var (next, answer) := CancelInternal(ex, id);
            && answer == CancelDone(ex.stops.orders[id].quantity)
            && next == ex.(stops := next.stops)
            && next.stops.orders == ex.stops.orders[id := ex.stops.orders[id].(status := Withdrawn)]
            && forall p: Price :: id !in TriggerableIds(next.stops.orders, p)
  {
  }

  /** A cancel fails exactly when nothing with that id is open, neither a pending stop nor an active
      order; a record that is no longer active is told apart from no record at all, and nothing changes. */
  lemma CancelFailsIff(ex: ExchangeState, id: OrderId)
    requires GoodExchange(ex)
    ensures var (next, answer) := CancelInternal(ex, id);
            && (answer.CancelFailed? <==>
                  && !IsPending(ex.stops.orders, id)
                  && !(id in ex.book.orders && ex.book.orders[id].status in {New, PartiallyFilled}))
            && (answer.CancelFailed? ==> next == ex)
            && (answer == CancelFailed(CancelNotActive) <==>
                  id in ex.book.orders && ex.book.orders[id].status in {Filled, Cancelled})
            && (answer == CancelFailed(CancelNotFound) ==> id !in ex.book.orders)
  {
  }

  /** What a caller checks before a cancel is exact: nothing is open under that id, or a stop is pending,
      or the cancel takes that order and nobody else out of the book. */
  lemma CancelGuardIsExact(ex: ExchangeState, id: OrderId)
    requires GoodExchange(ex)
    ensures CancelGuard(ex, id) <==>
            id in ex.book.orders && ex.book.orders[id].IsActive() ==> CancelWorks(ex.book, id)
  {
    hide GoodSide, GoodStops, Uncrossed, CancelWorks, CancelSafe;
    if id in ex.book.orders && ex.book.orders[id].IsActive() {
      CancelWorksIffSafe(ex.book, id);
    }
  }

  // ---- modify ------------------------------------------------------------------------

  /** Modifying an order that rests gives up its place: the answer holds what it had resting, the
      replacement has the next id, its side, the new price and quantity, and no owner. */
  lemma ModifyAnswersResting(ex: ExchangeState, s: Side, r: Resting, newPrice: Price, newQuantity: nat)
    requires GoodExchange(ex) && CancelGuard(ex, r.id) && RestsOn(ex.book, s, r) && newQuantity > 0
    ensures r.id in ex.book.orders
    ensures var (next, answer) := ModifyInternal(ex, r.id, newPrice, newQuantity);
            var n := SubmitNaively(NaiveRemove(View(ex.book), r.id), ex.book.nextOrderId, s, newPrice, newQuantity,
                                   ex.book.orders[r.id].tif, None, ex.policy);
            && answer.ModifyDone? && answer.newId == ex.book.nextOrderId && answer.cancelled == r.quantity
            && View(next.book) == n.book && |answer.trades| == |n.fills|
            && next.stops == ex.stops && next.last == ex.last
  {
    hide GoodSide, GoodStops, Uncrossed, SubmitNaively, Submit, CancelOrder, CancelSafe, Greedy;
    RestingRecord(ex.book, s, r);
    CancelGives(ex, s, r);
    CancelBookKeeps(ex, r.id);
    var mid := ex.(book := CancelOrder(ex.book, r.id).0);
    var tif := ex.book.orders[r.id].tif;
    UntaggedIsSafe(mid.book, s, newPrice, newQuantity, ex.policy);
    SubmitKeeps(mid, s, newPrice, newQuantity, tif, None);
    SubmitIsNaive(mid, s, newPrice, newQuantity, tif, None);
    var n := SubmitNaively(View(mid.book), mid.book.nextOrderId, s, newPrice, newQuantity, tif, None, ex.policy);
    TradesAreFills(n.fills, mid.book.nextTradeId, mid.book.nextTimestamp + 1, mid.book.nextOrderId, s);
  }

  lemma CancelGives(ex: ExchangeState, s: Side, r: Resting)
    requires GoodExchange(ex) && CancelGuard(ex, r.id) && RestsOn(ex.book, s, r)
    ensures var (b, quantity) := CancelOrder(ex.book, r.id);
            && quantity == Some(r.quantity) && View(b) == NaiveRemove(View(ex.book), r.id)
            && b.nextOrderId == ex.book.nextOrderId && !IsPending(ex.stops.orders, r.id)
            && CancelSafe(ex.book, r.id)
  {
    hide GoodSide, GoodStops, Uncrossed;
    RestingRecord(ex.book, s, r);
    SafeCancelWorks(ex.book, r.id);
    UnlistedWithout(ex.book, s.Opposite(), r.id);
  }

  /** A modify fails exactly when it asks for nothing or names no active order; asking for nothing
      comes first, and a pending stop is not found. Nothing changes. */
  lemma ModifyFailsIff(ex: ExchangeState, id: OrderId, newPrice: Price, newQuantity: nat)
    requires GoodExchange(ex)
    ensures var (next, answer) := ModifyInternal(ex, id, newPrice, newQuantity);
            && (answer.ModifyFailed? <==>
                  newQuantity == 0 || !(id in ex.book.orders && ex.book.orders[id].status in {New, PartiallyFilled}))
            && (answer.ModifyFailed? ==> next == ex)
            && (answer == ModifyFailed(InvalidQuantity) <==> newQuantity == 0)
            && (answer == ModifyFailed(ModifyNotActive) <==>
                  newQuantity > 0 && id in ex.book.orders && ex.book.orders[id].status in {Filled, Cancelled})
            && (newQuantity > 0 && id in ex.stops.orders ==> answer == ModifyFailed(ModifyNotFound))
  {
    hide Submit;
  }

  // ---- stops -------------------------------------------------------------------------

  // A trade at `p` reaches the stop: at or above a buy stop, at or below a sell stop.
  predicate ReachedAt(s: Side, stopPrice: Price, p: Price) {
    match s
    case Buy => stopPrice <= p
    case Sell => p <= stopPrice
  }

  /** A round at `p` hands out exactly the pending stops that `p` reaches once the trailing ones have
      moved, each marked triggered and otherwise as it was. */
  lemma FiresExactly(b: StopState, p: Price, id: OrderId)
    requires GoodStops(b)
    ensures var (after, hit) := FireRound(b, p);
            var moved := UpdateTrailing(b, p).orders;
            var fires := IsPending(b.orders, id) && id in moved && ReachedAt(moved[id].side, moved[id].stopPrice, p);
            && (fires <==> exists o | o in hit :: o.id == id)
            && (id in b.orders ==> id in moved && id in after.orders)
            && (fires ==> moved[id].(status := Triggered) in hit && after.orders[id].status == Triggered)
            && (!fires && id in b.orders ==> after.orders[id] == moved[id])
  {
    hide IndexExact, CollectTriggered, UpdateTrailing;
    UpdateExact(b, p);
    var moved := UpdateTrailing(b, p);
    CollectExact(moved, p);
    var hit := CollectTriggered(moved, p).1;
    if IsPending(moved.orders, id) && ReachedAt(moved.orders[id].side, moved.orders[id].stopPrice, p) {
      assert moved.orders[id].(status := Triggered) in hit && moved.orders[id].id == id;
    }
    forall o | o in hit && o.id == id
      ensures IsPending(moved.orders, id) && ReachedAt(moved.orders[id].side, moved.orders[id].stopPrice, p)
    {
      assert id in TriggerableIds(moved.orders, p);
    }
  }

  ghost predicate HasFired(ex: ExchangeState, id: OrderId) {
    id in ex.stops.orders && ex.stops.orders[id].status.Triggered?
  }

  lemma RoundKeepsFired(ex: ExchangeState, id: OrderId)
    requires GoodExchange(ex) && ex.last.Some?
    requires HasFired(ex, id) ||
             (IsPending(ex.stops.orders, id) && ex.stops.orders[id].trail.None? &&
              ReachedAt(ex.stops.orders[id].side, ex.stops.orders[id].stopPrice, ex.last.value))
    ensures HasFired(CascadeRound(ex).next, id)
  {
    hide GoodBook, IndexExact, Moved, UpdateTrailing, CollectTriggered, SubmitStops;
    var p := ex.last.value;
    UpdateExact(ex.stops, p);
    FiresExactly(ex.stops, p, id);
    FireAtKeeps(ex, p);
    SubmitStopsKeeps(FireAt(ex, p).0, FireAt(ex, p).1, None);
  }

  lemma CascadeFires(ex: ExchangeState, id: OrderId, n: nat)
    requires GoodExchange(ex) && ex.last.Some? && n > 0
    requires IsPending(ex.stops.orders, id) && ex.stops.orders[id].trail.None?
    requires ReachedAt(ex.stops.orders[id].side, ex.stops.orders[id].stopPrice, ex.last.value)
    ensures HasFired(Cascade(ex, n), id)
  {
    hide GoodExchange, CascadeRound, HasFired;
    var round := (e: ExchangeState) => CascadeRound(e);
    var inv := (e: ExchangeState) => GoodExchange(e) && e.last.Some? && HasFired(e, id);
    RoundKeeps(ex);
    RoundKeepsFired(ex, id);
    forall e | inv(e) ensures inv(round(e).next) {
      RoundKeeps(e);
      RoundKeepsFired(e, id);
    }
    RoundsInvariant(round, inv, round(ex).next, n - 1);
  }

  /** A stop that does not trail fires at once, and its answer says so, exactly when there has been a
      trade and the last one was at its price or beyond; every other stop is pending. */
  lemma StopAnswers(ex: ExchangeState, s: Side, stopPrice: Price, limit: Option<Price>, quantity: nat,
                    tif: TimeInForce, trail: Option<TrailMethod>)
    requires GoodExchange(ex)
    ensures var (next, r) := InsertStop(ex, s, stopPrice, limit, quantity, tif, trail);
            var atOnce := trail.None? && ex.last.Some? && ReachedAt(s, stopPrice, ex.last.value);
            && r.orderId == ex.book.nextOrderId && r.orderId in next.stops.orders
            && r.status == next.stops.orders[r.orderId].status
            && r.status == (if atOnce then Triggered else Pending)
            && (!atOnce ==>
                  && next.stops.orders == ex.stops.orders[r.orderId := next.stops.orders[r.orderId]]
                  && View(next.book) == View(ex.book) && next.trades == ex.trades && next.last == ex.last)
  {
    hide GoodExchange, Cascade;
    var o := NewStop(ex.book, s, stopPrice, limit, quantity, tif, trail);
    var placed := PlaceStop(ex, o);
    PlaceStopKeeps(ex, o);
    PlacedStop(ex, o);
    if trail.None? && ex.last.Some? && ReachedAt(s, stopPrice, ex.last.value) {
      CascadeFires(placed, o.id, MAX_CASCADE_DEPTH);
    }
  }

  lemma PlacedStop(ex: ExchangeState, o: StopOrder)
    ensures var placed := PlaceStop(ex, o);
            && placed.stops.orders == ex.stops.orders[o.id := o] && View(placed.book) == View(ex.book)
            && placed.trades == ex.trades && placed.last == ex.last
  {
  }
}
