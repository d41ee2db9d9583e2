/** Trailing stops: each trade moves every pending trailing stop once, never away from the market. */
module StopTrailing {
  import opened Types
  import opened PriceKeys
  import opened StopModel
  import opened StopTriggers

  lemma IndexMoveExact(index: StopIndex, s: Side, orders: StopMap, id: OrderId, o: StopOrder)
    requires IndexExact(index, s, orders)
    requires IsPending(orders, id) && orders[id].side == s
    requires o.id == id && o.side == s && o.status.Pending?
    ensures IndexExact(IndexAdd(IndexDrop(index, orders[id].stopPrice, id), o.stopPrice, id), s, orders[id := o])
  {
    var gone := orders[id := orders[id].(status := Withdrawn)];
    IndexDropExact(index, s, orders, id, gone[id]);
    IndexAddExact(IndexDrop(index, orders[id].stopPrice, id), s, gone, o);
    assert gone[id := o] == orders[id := o];
  }

  // A change that keeps side, status and stop price leaves the index exact.
  lemma IndexSameSpot(index: StopIndex, s: Side, orders: StopMap, id: OrderId, o: StopOrder)
    requires IndexExact(index, s, orders)
    requires IsPending(orders, id) && o.status.Pending? && o.side == orders[id].side
    requires o.stopPrice == orders[id].stopPrice
    ensures IndexExact(index, s, orders[id := o])
  {
    var o2 := orders[id := o];
    forall p, x | p in index && x in index[p] ensures WaitsAt(o2, x, s, p) {
      assert WaitsAt(orders, x, s, p);
    }
    forall x | IsPending(o2, x) && o2[x].side == s
      ensures o2[x].stopPrice in index && x in index[o2[x].stopPrice]
    {
      assert IsPending(orders, x);
    }
  }

  lemma MoveOneIndex(b: StopState, id: OrderId, p: Price)
    requires GoodStops(b) && IsTrailing(b.orders, id)
    ensures var after := MoveOne(b, id, p);
            && after.orders == b.orders[id := Moved(b.orders[id], p, b.changes)]
            && IndexExact(after.buys, Buy, after.orders)
            && IndexExact(after.sells, Sell, after.orders)
  {
    var o := b.orders[id];
    var moved := Moved(o, p, b.changes);
    if moved.stopPrice == o.stopPrice {
      IndexSameSpot(b.buys, Buy, b.orders, id, moved);
      IndexSameSpot(b.sells, Sell, b.orders, id, moved);
    } else {
      IndexMoveExact(b.Index(o.side), o.side, b.orders, id, moved);
      IndexFrame(b.Index(o.side.Opposite()), o.side.Opposite(), b.orders, id, moved);
    }
  }

  lemma MoveOneKeeps(b: StopState, id: OrderId, p: Price)
    requires GoodStops(b)
    ensures GoodStops(MoveOne(b, id, p))
  {
    if IsTrailing(b.orders, id) {
      MoveOneIndex(b, id, p);
      forall x ensures IsTrailing(MoveOne(b, id, p).orders, x) <==> IsTrailing(b.orders, x) {
      }
    }
  }

  // Every trailing stop named in `ids` moves once.
  function MoveThese(orders: StopMap, ids: seq<OrderId>, p: Price, changes: seq<int>): StopMap {
    map id | id in orders ::
      if id in ids && IsTrailing(orders, id) then Moved(orders[id], p, changes) else orders[id]
  }

  lemma MoveTheseStep(orders: StopMap, ids: seq<OrderId>, p: Price, changes: seq<int>)
    requires ids != [] && NoDuplicates(ids)
    ensures IsTrailing(orders, ids[0]) ==>
              MoveThese(orders[ids[0] := Moved(orders[ids[0]], p, changes)], ids[1..], p, changes) ==
              MoveThese(orders, ids, p, changes)
    ensures !IsTrailing(orders, ids[0]) ==>
              MoveThese(orders, ids[1..], p, changes) == MoveThese(orders, ids, p, changes)
  {
    assert ids == [ids[0]] + ids[1..];
    assert ids[0] !in ids[1..];
  }

  lemma {:induction false} MoveAllExact(b: StopState, ids: seq<OrderId>, p: Price)
    requires GoodStops(b) && NoDuplicates(ids)
    ensures var after := MoveAll(b, ids, p);
            && GoodStops(after)
            && after.orders == MoveThese(b.orders, ids, p, b.changes)
            && after.changes == b.changes && after.last == b.last && after.trailing == b.trailing
    decreases |ids|
  {
    if ids == [] {
      assert MoveThese(b.orders, ids, p, b.changes) == b.orders;
    } else {
      MoveOneKeeps(b, ids[0], p);
      MoveAllExact(MoveOne(b, ids[0], p), ids[1..], p);
      MoveTheseStep(b.orders, ids, p, b.changes);
    }
  }

  // The window of price changes a trade at `p` leaves.
  function ChangesAfter(b: StopState, p: Price): seq<int> {
    RecordPrice(b, p).changes
  }

  /** One trade price moves every pending trailing stop exactly once, by its own rule,
      re-indexes it, and touches no other stop. */
  lemma UpdateExact(b: StopState, p: Price)
    requires GoodStops(b)
    ensures var after := UpdateTrailing(b, p);
            && GoodStops(after)
            && after.orders.Keys == b.orders.Keys
            && (forall id | id in b.orders ::
                  after.orders[id] ==
                  if IsTrailing(b.orders, id) then Moved(b.orders[id], p, ChangesAfter(b, p)) else b.orders[id])
            && after.last == Some(p) && after.changes == ChangesAfter(b, p)
  {
    assert GoodStops(RecordPrice(b, p));
    MoveAllExact(RecordPrice(b, p), b.trailing, p);
  }

  // ---- the ratchet over a run of prices ----------------------------------------

  predicate Looser(s: Side, from: Price, to: Price) {
    if s.Sell? then to < from else to > from
  }

  function UpdateRun(b: StopState, prices: seq<Price>): StopState
    decreases |prices|
  {
    if prices == [] then b
    else UpdateTrailing(UpdateRun(b, prices[..|prices| - 1]), prices[|prices| - 1])
  }

  // The best price for the stop's side: highest for sells, lowest for buys.
  function Extreme(s: Side, prices: seq<Price>): Price
    requires prices != []
    decreases |prices|
  {
    var last := prices[|prices| - 1];
    if |prices| == 1 then last
    else
      var before := Extreme(s, prices[..|prices| - 1]);
      if s.Sell? then (if before >= last then before else last) else (if before <= last then before else last)
  }

  function Tightest(s: Side, a: Price, b: Price): Price {
    if s.Sell? then (if a >= b then a else b) else (if a <= b then a else b)
  }

  /** No trail method, fixed, percentage or averaged, ever moves a stop away from the market. */
  lemma {:induction false} NeverLoosens(b: StopState, prices: seq<Price>, id: OrderId)
    requires GoodStops(b) && id in b.orders
    ensures GoodStops(UpdateRun(b, prices)) && id in UpdateRun(b, prices).orders
    ensures var after := UpdateRun(b, prices).orders[id];
            && after == b.orders[id].(stopPrice := after.stopPrice, watermark := after.watermark)
            && !Looser(after.side, b.orders[id].stopPrice, after.stopPrice)
    decreases |prices|
  {
    if prices != [] {
      var before := prices[..|prices| - 1];
      NeverLoosens(b, before, id);
      UpdateExact(UpdateRun(b, before), prices[|prices| - 1]);
    }
  }

  lemma {:induction false} ExtremeIsExtreme(s: Side, prices: seq<Price>)
    requires prices != []
    ensures Extreme(s, prices) in prices
    ensures forall q | q in prices :: !Better(s.Opposite(), q, Extreme(s, prices))
    decreases |prices|
  {
    if |prices| > 1 {
      var before := prices[..|prices| - 1];
      ExtremeIsExtreme(s, before);
      assert prices == before + [prices[|prices| - 1]];
    }
  }

  /** A fixed trail has a closed form: the watermark is the best price seen, the stop is
      the tighter of where it started and the watermark less the trail. */
  lemma {:induction false} FixedTrailClosedForm(b: StopState, prices: seq<Price>, id: OrderId, cents: int)
    requires GoodStops(b) && IsTrailing(b.orders, id)
    requires b.orders[id].trail == Some(Fixed(cents))
    requires b.orders[id].watermark == None
    requires prices != []
    ensures GoodStops(UpdateRun(b, prices)) && id in UpdateRun(b, prices).orders
    ensures var o := b.orders[id];
            var best := Extreme(o.side, prices);
            UpdateRun(b, prices).orders[id] ==
            o.(watermark := Some(best),
               stopPrice := if cents > 0 then Tightest(o.side, o.stopPrice, TrailedPrice(o.side, best, cents))
                            else o.stopPrice)
    decreases |prices|
  {
    hide GoodStops;
    var before, p := prices[..|prices| - 1], prices[|prices| - 1];
    NeverLoosens(b, before, id);
    UpdateExact(UpdateRun(b, before), p);
    if before != [] {
      FixedTrailClosedForm(b, before, id, cents);
    }
  }

  // ---- moving, then firing --------------------------------------------------------

  function PendingIds(orders: StopMap): set<OrderId> {
    set id | id in orders && orders[id].status.Pending?
  }

  // Same stops, each still the one submitted at its own time.
  ghost predicate SameStops(o1: StopMap, o2: StopMap) {
    o1.Keys == o2.Keys && forall id | id in o1 :: o1[id].timestamp == o2[id].timestamp
  }

  lemma FiringClears(orders: StopMap, p: Price)
    ensures var after := Fire(orders, TriggerableIds(orders, p));
            && SameStops(orders, after)
            && TriggerableIds(after, p) == {}
            && PendingIds(after) == PendingIds(orders) - TriggerableIds(orders, p)
            && (TriggerableIds(orders, p) != {} ==> |PendingIds(after)| < |PendingIds(orders)|)
  {
    var after := Fire(orders, TriggerableIds(orders, p));
    assert PendingIds(after) == PendingIds(orders) - TriggerableIds(orders, p);
    assert TriggerableIds(orders, p) <= PendingIds(orders);
    if TriggerableIds(orders, p) != {} {
      var id := Pick(TriggerableIds(orders, p));
      assert PendingIds(after) <= PendingIds(orders) - {id};
      FewerMembers(PendingIds(after), PendingIds(orders) - {id});
    }
  }

  lemma {:induction false} FewerMembers<T>(a: set<T>, b: set<T>)
    requires a <= b
    ensures |a| <= |b|
    decreases |a|
  {
    if a != {} {
      var x :| x in a;
      FewerMembers(a - {x}, b - {x});
    }
  }

  lemma MovingKeepsPending(b: StopState, p: Price)
    requires GoodStops(b)
    ensures GoodStops(UpdateTrailing(b, p))
    ensures SameStops(b.orders, UpdateTrailing(b, p).orders)
    ensures PendingIds(UpdateTrailing(b, p).orders) == PendingIds(b.orders)
  {
    UpdateExact(b, p);
    var after := UpdateTrailing(b, p).orders;
    forall id | id in b.orders
      ensures after[id].timestamp == b.orders[id].timestamp && after[id].status == b.orders[id].status
    {
    }
  }

  lemma RoundFires(b: StopState, p: Price)
    requires GoodStops(b)
    ensures var (after, hit) := FireRound(b, p);
            && GoodStops(after) && SameStops(b.orders, after.orders)
            && TriggerableIds(after.orders, p) == {}
            && PendingIds(after.orders) <= PendingIds(b.orders)
            && (hit != [] ==> |PendingIds(after.orders)| < |PendingIds(b.orders)|)
  {
    var moved := UpdateTrailing(b, p);
    MovingKeepsPending(b, p);
    CollectKeeps(moved, p);
    CollectExact(moved, p);
    FiringClears(moved.orders, p);
  }
}
