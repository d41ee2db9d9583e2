/** Stop orders waiting for a price, indexed by that price, and trailing stops. */
module StopModel {
  import opened Types
  import opened PriceKeys

  datatype TrailMethod =
    | Fixed(cents: int)
    | Percentage(fraction: real)
    | SmaAbsChange(multiplier: real, period: nat)

  datatype StopStatus = Pending | Triggered | Withdrawn

  datatype StopOrder = StopOrder(
    id: OrderId,
    side: Side,
    stopPrice: Price,
    limitPrice: Option<Price>,
    quantity: nat,
    tif: TimeInForce,
    timestamp: nat,
    status: StopStatus,
    trail: Option<TrailMethod>,
    watermark: Option<Price>)

  type StopIndex = map<Price, seq<OrderId>>
  type StopMap = map<OrderId, StopOrder>

  datatype StopState = StopState(
    buys: StopIndex,
    sells: StopIndex,
    orders: StopMap,
    trailing: seq<OrderId>,
    changes: seq<int>,
    last: Option<Price>)
  {
    function Index(s: Side): StopIndex {
      if s.Buy? then buys else sells
    }

    function WithIndex(s: Side, index: StopIndex): StopState {
      if s.Buy? then this.(buys := index) else this.(sells := index)
    }
  }

  const MAX_PRICE_HISTORY: nat := 10_000

  function NewStops(): StopState {
    StopState(map[], map[], map[], [], [], None)
  }

  // ---- the price index ---------------------------------------------------

  function Retain(ids: seq<OrderId>, id: OrderId): seq<OrderId> {
    if ids == [] then []
    else (if ids[0] == id then [] else [ids[0]]) + Retain(ids[1..], id)
  }

  function IndexAdd(index: StopIndex, p: Price, id: OrderId): StopIndex {
    index[p := (if p in index then index[p] else []) + [id]]
  }

  function IndexDrop(index: StopIndex, p: Price, id: OrderId): StopIndex {
    if p !in index then index
    else if Retain(index[p], id) == [] then index - {p}
    else index[p := Retain(index[p], id)]
  }

  // ---- operations ----------------------------------------------------------

  function Insert(b: StopState, o: StopOrder): StopState {
    var indexed := b.WithIndex(o.side, IndexAdd(b.Index(o.side), o.stopPrice, o.id));
    indexed.(orders := b.orders[o.id := o],
             trailing := if o.trail.Some? then b.trailing + [o.id] else b.trailing)
  }

  predicate IsPending(orders: StopMap, id: OrderId) {
    id in orders && orders[id].status.Pending?
  }

  function Withdraw(b: StopState, id: OrderId): (StopState, bool) {
    if !IsPending(b.orders, id) then (b, false)
    else
      var o := b.orders[id];
      var dropped := b.WithIndex(o.side, IndexDrop(b.Index(o.side), o.stopPrice, id));
      (dropped.(orders := b.orders[id := o.(status := Withdrawn)],
                trailing := Retain(b.trailing, id)), true)
  }

  predicate Triggerable(o: StopOrder, p: Price) {
    o.status.Pending? && (if o.side.Buy? then p >= o.stopPrice else p <= o.stopPrice)
  }

  // Keys of the index a trade at `p` reaches, ascending.
  ghost function ReachedKeys(index: StopIndex, s: Side, p: Price): seq<Price> {
    SortedKeys(Sell, ReachedSet(index, s, p))
  }

  function ReachedSet(index: StopIndex, s: Side, p: Price): set<Price> {
    set k | k in index.Keys && (if s.Buy? then k <= p else k >= p)
  }

  function Buckets(keys: seq<Price>, index: StopIndex): seq<OrderId> {
    if keys == [] then []
    else (if keys[0] in index then index[keys[0]] else []) + Buckets(keys[1..], index)
  }

  // Marks the pending ids in turn; the second result is what was marked, in that order.
  function TriggerAll(orders: StopMap, ids: seq<OrderId>): (StopMap, seq<StopOrder>)
    decreases |ids|
  {
    if ids == [] then (orders, [])
    else if !IsPending(orders, ids[0]) then TriggerAll(orders, ids[1..])
    else
      var o := orders[ids[0]].(status := Triggered);
      var (last, rest) := TriggerAll(orders[ids[0] := o], ids[1..]);
      (last, [o] + rest)
  }

  // Stable insertion by timestamp.
  function InsertByTime(o: StopOrder, sorted: seq<StopOrder>): seq<StopOrder> {
    if sorted == [] || o.timestamp <= sorted[0].timestamp then [o] + sorted
    else [sorted[0]] + InsertByTime(o, sorted[1..])
  }

  function SortByTime(stops: seq<StopOrder>): seq<StopOrder> {
    if stops == [] then [] else InsertByTime(stops[0], SortByTime(stops[1..]))
  }

  function StillPending(ids: seq<OrderId>, orders: StopMap): seq<OrderId> {
    if ids == [] then []
    else (if IsPending(orders, ids[0]) then [ids[0]] else []) + StillPending(ids[1..], orders)
  }

  ghost function ReachedIds(b: StopState, p: Price): seq<OrderId> {
    Buckets(ReachedKeys(b.buys, Buy, p), b.buys) + Buckets(ReachedKeys(b.sells, Sell, p), b.sells)
  }

  ghost function CollectTriggered(b: StopState, p: Price): (StopState, seq<StopOrder>) {
    var (orders, hit) := TriggerAll(b.orders, ReachedIds(b, p));
    (b.(buys := b.buys - ReachedSet(b.buys, Buy, p),
        sells := b.sells - ReachedSet(b.sells, Sell, p),
        orders := orders,
        trailing := if hit == [] then b.trailing else StillPending(b.trailing, orders)),
     SortByTime(hit))
  }

  // ---- trailing --------------------------------------------------------------

  function Abs(x: int): nat {
    if x < 0 then -x else x
  }

  function Sum(xs: seq<int>): int {
    if xs == [] then 0 else xs[0] + Sum(xs[1..])
  }

  // Half away from zero, as `f64::round`.
  function Round(x: real): int {
    if x >= 0.0 then (x + 0.5).Floor else -((0.5 - x).Floor)
  }

  // Toward zero, as an `as i64` cast.
  function Truncate(x: real): int {
    if x >= 0.0 then x.Floor else -((-x).Floor)
  }

  function SmaOffset(changes: seq<int>, multiplier: real, period: nat): int {
    if changes == [] || period == 0 then 0
    else
      var window := if |changes| >= period then changes[|changes| - period..] else changes;
      Truncate(Sum(window) as real / |window| as real * multiplier)
  }

  function Offset(trail: TrailMethod, watermark: Price, changes: seq<int>): int {
    match trail
    case Fixed(cents) => cents
    case Percentage(fraction) => Round(watermark as real * fraction)
    case SmaAbsChange(multiplier, period) => SmaOffset(changes, multiplier, period)
  }

  function Watermark(o: StopOrder, p: Price): Price {
    var seen := if o.watermark.Some? then o.watermark.value else p;
    if o.side.Sell? then (if seen >= p then seen else p) else (if seen <= p then seen else p)
  }

  function TrailedPrice(s: Side, watermark: Price, offset: int): Price {
    if s.Sell? then watermark - offset else watermark + offset
  }

  // A stop only ever moves towards the market.
  predicate Tightens(s: Side, from: Price, to: Price) {
    if s.Sell? then to > from else to < from
  }

  // The trailing stop after a trade at `p`.
  function Moved(o: StopOrder, p: Price, changes: seq<int>): StopOrder
    requires o.trail.Some?
  {
    var w := Watermark(o, p);
    var offset := Offset(o.trail.value, w, changes);
    var to := TrailedPrice(o.side, w, offset);
    if offset > 0 && Tightens(o.side, o.stopPrice, to)
    then o.(stopPrice := to, watermark := Some(w))
    else o.(watermark := Some(w))
  }

  predicate IsTrailing(orders: StopMap, id: OrderId) {
    IsPending(orders, id) && orders[id].trail.Some?
  }

  function MoveOne(b: StopState, id: OrderId, p: Price): StopState {
    if !IsTrailing(b.orders, id) then b
    else
      var o := b.orders[id];
      var moved := Moved(o, p, b.changes);
      var reindexed :=
        if moved.stopPrice == o.stopPrice then b
        else b.WithIndex(o.side, IndexAdd(IndexDrop(b.Index(o.side), o.stopPrice, id), moved.stopPrice, id));
      reindexed.(orders := b.orders[id := moved])
  }

  function MoveAll(b: StopState, ids: seq<OrderId>, p: Price): StopState
    decreases |ids|
  {
    if ids == [] then b else MoveAll(MoveOne(b, ids[0], p), ids[1..], p)
  }

  function Capped(changes: seq<int>): seq<int> {
    if |changes| > MAX_PRICE_HISTORY then changes[|changes| - MAX_PRICE_HISTORY..] else changes
  }

  function RecordPrice(b: StopState, p: Price): StopState {
    match b.last
    case None => b.(last := Some(p))
    case Some(prev) => b.(last := Some(p), changes := Capped(b.changes + [Abs(p - prev)]))
  }

  function UpdateTrailing(b: StopState, p: Price): StopState {
    MoveAll(RecordPrice(b, p), b.trailing, p)
  }

  // One round: trailing stops move to the price, then stops fire at it.
  ghost function FireRound(b: StopState, p: Price): (StopState, seq<StopOrder>) {
    CollectTriggered(UpdateTrailing(b, p), p)
  }

  function ClearStopHistory(b: StopState): StopState {
    var orders := map id | id in b.orders && b.orders[id].status.Pending? :: b.orders[id];
    b.(orders := orders, trailing := StillPending(b.trailing, orders))
  }

  // ---- exactness of the index ------------------------------------------------

  ghost predicate NoDuplicates(ids: seq<OrderId>) {
    forall i, j | 0 <= i < j < |ids| :: ids[i] != ids[j]
  }

  predicate WaitsAt(orders: StopMap, id: OrderId, s: Side, p: Price) {
    IsPending(orders, id) && orders[id].side == s && orders[id].stopPrice == p
  }

  /** An id sits in the bucket at `p` exactly when it is pending with that stop price,
      once, and no bucket is empty. */
  ghost predicate IndexExact(index: StopIndex, s: Side, orders: StopMap) {
    && (forall p | p in index :: index[p] != [] && NoDuplicates(index[p]))
    && (forall p, id | p in index && id in index[p] :: WaitsAt(orders, id, s, p))
    && (forall id | IsPending(orders, id) && orders[id].side == s ::
          orders[id].stopPrice in index && id in index[orders[id].stopPrice])
  }

  ghost predicate TrailingExact(b: StopState) {
    && NoDuplicates(b.trailing)
    && forall id :: id in b.trailing <==> IsTrailing(b.orders, id)
  }

  ghost predicate GoodStops(b: StopState) {
    && IndexExact(b.buys, Buy, b.orders)
    && IndexExact(b.sells, Sell, b.orders)
    && TrailingExact(b)
    && (forall id | id in b.orders :: b.orders[id].id == id)
    && (forall i, j | i in b.orders && j in b.orders && i != j :: b.orders[i].timestamp != b.orders[j].timestamp)
  }

  lemma {:induction false} RetainFacts(ids: seq<OrderId>, id: OrderId)
    ensures forall x :: x in Retain(ids, id) <==> x in ids && x != id
    ensures NoDuplicates(ids) ==> NoDuplicates(Retain(ids, id))
  {
    if ids != [] {
      var rest := Retain(ids[1..], id);
      RetainFacts(ids[1..], id);
      assert ids == [ids[0]] + ids[1..];
      if NoDuplicates(ids) {
        assert NoDuplicates(ids[1..]);
        assert ids[0] !in ids[1..];
        assert ids[0] !in rest;
      }
    }
  }

  lemma {:induction false} StillPendingFacts(ids: seq<OrderId>, orders: StopMap)
    ensures forall x :: x in StillPending(ids, orders) <==> x in ids && IsPending(orders, x)
    ensures NoDuplicates(ids) ==> NoDuplicates(StillPending(ids, orders))
  {
    if ids != [] {
      var rest := StillPending(ids[1..], orders);
      StillPendingFacts(ids[1..], orders);
      assert ids == [ids[0]] + ids[1..];
      if NoDuplicates(ids) {
        assert NoDuplicates(ids[1..]);
        assert ids[0] !in ids[1..];
        assert ids[0] !in rest;
      }
    }
  }

  lemma NewStopsAreGood()
    ensures GoodStops(NewStops())
  {
  }

  lemma IndexAddExact(index: StopIndex, s: Side, orders: StopMap, o: StopOrder)
    requires IndexExact(index, s, orders)
    requires !IsPending(orders, o.id)
    requires o.status.Pending? && o.side == s
    ensures IndexExact(IndexAdd(index, o.stopPrice, o.id), s, orders[o.id := o])
  {
    var p, after, o2 := o.stopPrice, IndexAdd(index, o.stopPrice, o.id), orders[o.id := o];
    assert p in index ==> o.id !in index[p];
    forall q, id | q in after && id in after[q] ensures WaitsAt(o2, id, s, q) {
      if q == p && id == o.id {
      } else {
        assert q in index && id in index[q];
      }
    }
    forall id | IsPending(o2, id) && o2[id].side == s
      ensures o2[id].stopPrice in after && id in after[o2[id].stopPrice]
    {
      if id != o.id {
        assert IsPending(orders, id);
      }
    }
  }

  lemma IndexDropExact(index: StopIndex, s: Side, orders: StopMap, id: OrderId, o: StopOrder)
    requires IndexExact(index, s, orders)
    requires IsPending(orders, id) && orders[id].side == s
    requires !o.status.Pending?
    ensures IndexExact(IndexDrop(index, orders[id].stopPrice, id), s, orders[id := o])
  {
    var p := orders[id].stopPrice;
    var after, o2 := IndexDrop(index, p, id), orders[id := o];
    RetainFacts(index[p], id);
    forall q, x | q in after && x in after[q] ensures WaitsAt(o2, x, s, q) {
      assert q in index && x in index[q] && WaitsAt(orders, x, s, q);
      assert x != id;
    }
    forall x | IsPending(o2, x) && o2[x].side == s
      ensures o2[x].stopPrice in after && x in after[o2[x].stopPrice]
    {
      assert x != id && IsPending(orders, x);
      if o2[x].stopPrice == p {
        assert x in Retain(index[p], id);
      }
    }
  }

  // The other side's index does not see a change to an order that is not on it.
  lemma IndexFrame(index: StopIndex, s: Side, orders: StopMap, id: OrderId, o: StopOrder)
    requires IndexExact(index, s, orders)
    requires id in orders ==> orders[id].side != s || !orders[id].status.Pending?
    requires o.side != s || !o.status.Pending?
    ensures IndexExact(index, s, orders[id := o])
  {
    var o2 := orders[id := o];
    forall p, x | p in index && x in index[p] ensures WaitsAt(o2, x, s, p) {
      assert WaitsAt(orders, x, s, p);
    }
    forall x | IsPending(o2, x) && o2[x].side == s
      ensures o2[x].stopPrice in index && x in index[o2[x].stopPrice]
    {
      assert IsPending(orders, x);
    }
  }

  lemma InsertKeeps(b: StopState, o: StopOrder)
    requires GoodStops(b) && o.id !in b.orders && o.status.Pending?
    requires forall id | id in b.orders :: b.orders[id].timestamp < o.timestamp
    ensures GoodStops(Insert(b, o))
    ensures var index := Insert(b, o).Index(o.side);
            o.stopPrice in index && index[o.stopPrice] != [] && index[o.stopPrice][|index[o.stopPrice]| - 1] == o.id
  {
    hide IndexExact;
    IndexAddExact(b.Index(o.side), o.side, b.orders, o);
    IndexFrame(b.Index(o.side.Opposite()), o.side.Opposite(), b.orders, o.id, o);
    assert o.id !in b.trailing;
  }

  lemma WithdrawKeeps(b: StopState, id: OrderId)
    requires GoodStops(b)
    ensures GoodStops(Withdraw(b, id).0)
    ensures Withdraw(b, id).1 ==> !IsPending(Withdraw(b, id).0.orders, id)
  {
    if IsPending(b.orders, id) {
      var o := b.orders[id];
      IndexDropExact(b.Index(o.side), o.side, b.orders, id, o.(status := Withdrawn));
      IndexFrame(b.Index(o.side.Opposite()), o.side.Opposite(), b.orders, id, o.(status := Withdrawn));
      RetainFacts(b.trailing, id);
    }
  }

  lemma ClearKeeps(b: StopState)
    requires GoodStops(b)
    ensures GoodStops(ClearStopHistory(b))
  {
    var after := ClearStopHistory(b);
    StillPendingFacts(b.trailing, after.orders);
    forall id ensures IsPending(after.orders, id) <==> IsPending(b.orders, id) {
    }
  }
}
