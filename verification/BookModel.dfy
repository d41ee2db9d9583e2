/** Both sides of the book, the central order map and the id counters. */
module BookModel {
  import opened Types
  import opened PriceKeys
  import opened OrderModel
  import opened LevelModel
  import opened SideModel

  datatype BookState = BookState(
    bids: SideState,
    asks: SideState,
    orders: OrderMap,
    nextOrderId: nat,
    nextTradeId: nat,
    nextTimestamp: nat)
  {
    function SideOf(s: Side): SideState {
      if s.Buy? then bids else asks
    }

    function WithSide(s: Side, sv: SideState): BookState {
      if s.Buy? then this.(bids := sv) else this.(asks := sv)
    }

    ghost function LiveOn(s: Side): seq<Resting> {
      Live(SideOf(s), orders)
    }
  }

  function NewBook(): BookState {
    BookState(NewSide(Buy), NewSide(Sell), map[], 1, 1, 1)
  }

  // ---- operations -----------------------------------------------------

  function CreateOrder(b: BookState, s: Side, price: Price, quantity: nat, tif: TimeInForce)
    : (BookState, OrderState)
  {
    (b.(nextOrderId := b.nextOrderId + 1, nextTimestamp := b.nextTimestamp + 1),
     NewOrder(b.nextOrderId, s, price, quantity, b.nextTimestamp, tif))
  }

  function StoreOrder(b: BookState, o: OrderState): BookState {
    b.(orders := b.orders[o.id := o])
  }

  function AddOrder(b: BookState, o: OrderState): BookState {
    var (sv, slot) := InsertOrder(b.SideOf(o.side), o.price, o.id, o.remaining);
    StoreOrder(b.WithSide(o.side, sv), o.(position := slot))
  }

  ghost function CancelOrder(b: BookState, id: OrderId): (BookState, Option<nat>) {
    if id !in b.orders || !b.orders[id].IsActive() then (b, None)
    else
      var o := b.orders[id];
      var marked := MarkSlot(b.SideOf(o.side), o.price, o.position, o.remaining);
      (StoreOrder(b, o.Cancel()).WithSide(o.side, marked), Some(o.remaining))
  }

  function CompactBook(b: BookState): BookState {
    b.(bids := CompactSide(b.bids), asks := CompactSide(b.asks))
  }

  function ClearHistory(b: BookState): BookState {
    b.(orders := map id | id in b.orders && b.orders[id].IsActive() :: b.orders[id])
  }

  // ---- well-formedness -------------------------------------------------

  ghost predicate GoodBook(b: BookState) {
    && GoodSide(b.bids, Buy, b.orders)
    && GoodSide(b.asks, Sell, b.orders)
    && (forall id | id in b.orders :: 0 < id < b.nextOrderId && b.orders[id].id == id)
  }

  ghost predicate Uncrossed(b: BookState) {
    forall p, q | p in b.bids.levels && q in b.asks.levels :: p < q
  }

  lemma NewBookIsGood()
    ensures GoodBook(NewBook()) && Uncrossed(NewBook())
    ensures NewBook().LiveOn(Buy) == [] && NewBook().LiveOn(Sell) == []
  {
    assert NewBook().bids.levels.Keys == {} && NewBook().asks.levels.Keys == {};
  }

  // ---- resting ---------------------------------------------------------

  lemma AddOrderIsInsertion(b: BookState, o: OrderState)
    requires GoodBook(b)
    requires o.id !in b.orders && o.id == b.nextOrderId - 1 && o.id > 0
    requires Rests(o, o.id, o.side, o.price)
    ensures var after := AddOrder(b, o);
            && GoodBook(after)
            && after.LiveOn(o.side) == InsertByPriority(o.side, b.LiveOn(o.side), RestingOf(o))
            && after.LiveOn(o.side.Opposite()) == b.LiveOn(o.side.Opposite())
            && after.SideOf(o.side).levels.Keys == b.SideOf(o.side).levels.Keys + {o.price}
  {
    hide PutLevel, NewLevel;
    var sv := b.SideOf(o.side);
    var slot := InsertOrder(sv, o.price, o.id, o.remaining).1;
    var stored := o.(position := slot);
    assert forall x | x in b.orders :: x < o.id by {
      forall x | x in b.orders ensures x < o.id {
        assert x != o.id;
      }
    }
    InsertKeepsSide(sv, o.side, b.orders, o.id, stored);
    InsertLive(sv, o.side, b.orders, o.id, stored);
    OtherSideFrame(b.SideOf(o.side.Opposite()), o.side.Opposite(), b.orders, o.id, stored);
  }

  // ---- cancelling -------------------------------------------------------

  // What the book holds at the slot an order remembers; a tombstone if there is no such slot.
  function SlotOf(b: BookState, o: OrderState): OrderId {
    var sv := b.SideOf(o.side);
    if o.price in sv.levels && o.position < |sv.levels[o.price].orders|
    then sv.levels[o.price].orders[o.position]
    else TOMBSTONE
  }

  predicate IsQueued(b: BookState, o: OrderState) {
    var sv := b.SideOf(o.side);
    o.price in sv.levels && o.id in sv.levels[o.price].orders
  }

  lemma QueuedIsOpen(b: BookState, id: OrderId)
    requires GoodBook(b) && id in b.orders
    ensures IsQueued(b, b.orders[id]) ==> Rests(b.orders[id], id, b.orders[id].side, b.orders[id].price)
  {
    var o := b.orders[id];
    if IsQueued(b, o) {
      var queue := b.SideOf(o.side).levels[o.price].orders;
      assert GoodLevel(b.SideOf(o.side).levels[o.price], o.side, o.price, b.orders);
      var k :| 0 <= k < |queue| && queue[k] == id;
    }
  }

  // A caller can check this before cancelling: the remembered slot still holds the
  // order, or, for an order that is not queued, holds nobody.
  predicate CancelSafe(b: BookState, id: OrderId)
    requires id in b.orders
  {
    var o := b.orders[id];
    SlotOf(b, o) == if IsQueued(b, o) then id else TOMBSTONE
  }

  lemma QueueCut(queue: seq<OrderId>, k: nat, orders: OrderMap)
    requires k < |queue| && queue[k] != TOMBSTONE && queue[k] in orders
    ensures QueueOf(queue, orders) ==
            QueueOf(queue[..k], orders) + [RestingOf(orders[queue[k]])] + QueueOf(queue[k + 1..], orders)
    ensures QueueOf(queue[k := TOMBSTONE], orders) ==
            QueueOf(queue[..k], orders) + QueueOf(queue[k + 1..], orders)
  {
    var a, b := queue[..k], queue[k + 1..];
    CutAt(queue, k);
    QueueConcat(a, [queue[k]], orders);
    QueueConcat(a + [queue[k]], b, orders);
    QueueConcat(a, [TOMBSTONE], orders);
    QueueConcat(a + [TOMBSTONE], b, orders);
    assert QueueOf([queue[k]], orders) == [RestingOf(orders[queue[k]])];
    assert QueueOf([TOMBSTONE], orders) == [];
  }

  lemma WithoutMiddle(a: seq<Resting>, r: Resting, b: seq<Resting>)
    requires forall x | x in a + b :: x.id != r.id
    ensures Without(a + [r] + b, r.id) == a + b
    ensures SumQuantity(a + [r] + b) == SumQuantity(a + b) + r.quantity
  {
    forall x | x in a || x in b ensures x.id != r.id {
      assert x in a + b;
    }
    WithoutAbsent(a, r.id);
    WithoutAbsent(b, r.id);
    assert Without([r], r.id) == [];
    WithoutConcat(a, [r], r.id);
    WithoutConcat(a + [r], b, r.id);
    SumConcat(a, [r]);
    SumConcat(a + [r], b);
    SumConcat(a, b);
  }

  lemma QueueAroundSlot(queue: seq<OrderId>, s: Side, p: Price, orders: OrderMap, k: nat)
    requires GoodQueue(queue, s, p, orders)
    requires k < |queue| && queue[k] != TOMBSTONE
    ensures var id := queue[k];
            && QueueOf(queue[k := TOMBSTONE], orders) == Without(QueueOf(queue, orders), id)
            && SumQuantity(QueueOf(queue, orders)) ==
               SumQuantity(QueueOf(queue[k := TOMBSTONE], orders)) + orders[id].remaining
  {
    var a, b := queue[..k], queue[k + 1..];
    QueueCut(queue, k, orders);
    QueueMembers(a, s, p, orders);
    QueueMembers(b, s, p, orders);
    WithoutMiddle(QueueOf(a, orders), RestingOf(orders[queue[k]]), QueueOf(b, orders));
  }

  // Cancelling at the right slot takes exactly that order out of its level.
  lemma MarkedLevel(l: LevelState, s: Side, p: Price, orders: OrderMap, k: nat, o: OrderState)
    requires GoodLevel(l, s, p, orders)
    requires k < |l.orders| && l.orders[k] != TOMBSTONE && o == orders[l.orders[k]]
    ensures var after := MarkTombstone(l, k, o.remaining);
            var o2 := orders[o.id := o.Cancel()];
            && GoodOrEmpty(after, s, p, o2)
            && QueueOf(after.orders, o2) == Without(QueueOf(l.orders, orders), o.id)
  {
    var id := l.orders[k];
    var o2 := orders[id := o.Cancel()];
    var queue := l.orders[k := TOMBSTONE];
    QueueAroundSlot(l.orders, s, p, orders, k);
    LiveAroundSlot(l.orders, k);
    assert id !in queue;
    QueueFrame(queue, orders, o2);
    assert GoodQueue(queue, s, p, o2);
  }

  lemma CancelledSide(sv: SideState, s: Side, orders: OrderMap, o: OrderState)
    requires GoodSide(sv, s, orders)
    requires o.id in orders && orders[o.id] == o && o.side == s
    requires o.price in sv.levels && o.position < |sv.levels[o.price].orders|
    requires sv.levels[o.price].orders[o.position] == o.id != TOMBSTONE
    ensures var after := MarkSlot(sv, o.price, o.position, o.remaining);
            var o2 := orders[o.id := o.Cancel()];
            && GoodSide(after, s, o2)
            && after.levels.Keys <= sv.levels.Keys
            && Live(after, o2) == Without(Live(sv, orders), o.id)
  {
    var p, o2 := o.price, orders[o.id := o.Cancel()];
    assert GoodLevel(sv.levels[p], s, p, orders);
    MarkedLevel(sv.levels[p], s, p, orders, o.position, o);
    OneOrderKeepsOthers(sv, s, p, orders, o.id, o.Cancel());
    PutOrDropLive(sv, s, p, orders, MarkTombstone(sv.levels[p], o.position, o.remaining), o2);
    LiveSplit(sv, p, orders);
    OffPriceIdsDiffer(sv, s, p, orders, o.id);
    var a, m, b := Above(sv, p, orders), At(sv, p, orders), Below(sv, p, orders);
    WithoutAbsent(a, o.id);
    WithoutAbsent(b, o.id);
    WithoutConcat(a, m, o.id);
    WithoutConcat(a + m, b, o.id);
  }

  lemma OffPriceIdsDiffer(sv: SideState, s: Side, p: Price, orders: OrderMap, id: OrderId)
    requires GoodSide(sv, s, orders)
    requires id in orders && orders[id].price == p
    ensures forall x | x in Above(sv, p, orders) || x in Below(sv, p, orders) :: x.id != id
  {
    PricesAround(sv, s, p, orders);
    FlatMembers(SortedKeys(s, KeysAbove(s, sv.levels.Keys, p)), sv, s, orders);
    FlatMembers(SortedKeys(s, KeysBelow(s, sv.levels.Keys, p)), sv, s, orders);
  }

  // A dead slot leaves the side alone; the order was not on it.
  lemma UnqueuedSide(sv: SideState, s: Side, orders: OrderMap, o: OrderState)
    requires GoodSide(sv, s, orders)
    requires o.id in orders && orders[o.id] == o && o.side == s && o.id != TOMBSTONE
    requires o.price in sv.levels ==>
               && o.id !in sv.levels[o.price].orders
               && (o.position < |sv.levels[o.price].orders| ==>
                     sv.levels[o.price].orders[o.position] == TOMBSTONE)
    ensures var after := MarkSlot(sv, o.price, o.position, o.remaining);
            var o2 := orders[o.id := o.Cancel()];
            && after == sv && GoodSide(after, s, o2)
            && Live(after, o2) == Live(sv, orders) == Without(Live(sv, orders), o.id)
  {
    var o2 := orders[o.id := o.Cancel()];
    if o.price in sv.levels {
      assert GoodLevel(sv.levels[o.price], s, o.price, orders);
      assert sv.levels[o.price := sv.levels[o.price]] == sv.levels;
    }
    forall q, x | q in sv.levels && x in sv.levels[q].orders && x != TOMBSTONE
      ensures x in orders && x in o2 && orders[x] == o2[x]
    {
      assert GoodLevel(sv.levels[q], s, q, orders);
      var k :| 0 <= k < |sv.levels[q].orders| && sv.levels[q].orders[k] == x;
      assert Rests(orders[x], x, s, q);
    }
    SideFrame(sv, s, orders, o2);
    FlatMembers(SortedKeys(s, sv.levels.Keys), sv, s, orders);
    WithoutAbsent(Live(sv, orders), o.id);
  }

  lemma SafeCancelWorks(b: BookState, id: OrderId)
    requires GoodBook(b) && id in b.orders && b.orders[id].IsActive()
    requires CancelSafe(b, id)
    ensures var o := b.orders[id];
            var after := CancelOrder(b, id).0;
            && GoodBook(after)
            && after.LiveOn(o.side) == Without(b.LiveOn(o.side), id)
            && after.LiveOn(o.side.Opposite()) == b.LiveOn(o.side.Opposite())
            && after.bids.levels.Keys <= b.bids.levels.Keys
            && after.asks.levels.Keys <= b.asks.levels.Keys
  {
    var o := b.orders[id];
    var sv := b.SideOf(o.side);
    if IsQueued(b, o) {
      CancelledSide(sv, o.side, b.orders, o);
    } else {
      UnqueuedSide(sv, o.side, b.orders, o);
    }
    OtherSideFrame(b.SideOf(o.side.Opposite()), o.side.Opposite(), b.orders, id, o.Cancel());
  }

  // What a cancel is for: the book stays well formed, that order leaves its side's
  // queue, and nobody else moves.
  ghost predicate CancelWorks(b: BookState, id: OrderId)
    requires id in b.orders
  {
    var s := b.orders[id].side;
    var after := CancelOrder(b, id).0;
    && GoodBook(after)
    && after.LiveOn(s) == Without(b.LiveOn(s), id)
    && after.LiveOn(s.Opposite()) == b.LiveOn(s.Opposite())
  }

  lemma {:induction false} SumMember(live: seq<Resting>, r: Resting)
    requires r in live
    ensures r.quantity <= SumQuantity(live)
  {
    if live[0] != r {
      SumMember(live[1..], r);
    }
  }

  lemma TwoLiveOrdersOutweighOne(l: LevelState, s: Side, p: Price, orders: OrderMap, k: nat, id: OrderId)
    requires GoodLevel(l, s, p, orders)
    requires k < |l.orders| && l.orders[k] != TOMBSTONE
    requires id in l.orders && id != TOMBSTONE && id != l.orders[k]
    ensures l.total > orders[id].remaining
  {
    var queue := l.orders[k := TOMBSTONE];
    QueueAroundSlot(l.orders, s, p, orders, k);
    var j :| 0 <= j < |l.orders| && l.orders[j] == id;
    assert queue[j] == id;
    assert GoodQueue(queue, s, p, orders);
    QueueMembers(queue, s, p, orders);
    SumMember(QueueOf(queue, orders), RestingOf(orders[id]));
  }

  lemma StaleSlotBreaksBook(b: BookState, id: OrderId)
    requires GoodBook(b) && id in b.orders && b.orders[id].IsActive()
    requires IsQueued(b, b.orders[id]) && SlotOf(b, b.orders[id]) != id
    ensures !GoodBook(CancelOrder(b, id).0)
  {
    var o := b.orders[id];
    var sv := b.SideOf(o.side);
    var l := sv.levels[o.price];
    assert GoodLevel(l, o.side, o.price, b.orders);
    var l2 := MarkTombstone(l, o.position, o.remaining);
    if SlotOf(b, o) != TOMBSTONE {
      TwoLiveOrdersOutweighOne(l, o.side, o.price, b.orders, o.position, id);
    }
    assert !l2.IsEmpty();
    var after := CancelOrder(b, id).0;
    var j :| 0 <= j < |l.orders| && l.orders[j] == id;
    assert l2.orders[j] == id;
    assert after.SideOf(o.side).levels[o.price] == l2;
    assert !Rests(after.orders[l2.orders[j]], id, o.side, o.price);
    assert !GoodLevel(l2, o.side, o.price, after.orders);
  }

  lemma StrangersSlotLosesStranger(b: BookState, id: OrderId)
    requires GoodBook(b) && id in b.orders && b.orders[id].IsActive()
    requires !IsQueued(b, b.orders[id]) && SlotOf(b, b.orders[id]) != TOMBSTONE
    ensures !CancelWorks(b, id)
  {
    var o := b.orders[id];
    var s := o.side;
    var sv := b.SideOf(s);
    var l := sv.levels[o.price];
    assert GoodLevel(l, s, o.price, b.orders);
    var x := SlotOf(b, o);
    var after := CancelOrder(b, id).0;
    assert x !in l.orders[o.position := TOMBSTONE];
    if CancelWorks(b, id) {
      var r := RestingOf(b.orders[x]);
      QueueMembers(l.orders, s, o.price, b.orders);
      LiveSplit(sv, o.price, b.orders);
      assert r in b.LiveOn(s);
      FlatMembers(SortedKeys(s, sv.levels.Keys), sv, s, b.orders);
      WithoutAbsent(b.LiveOn(s), id);
      assert r in after.LiveOn(s);
      var sv2 := after.SideOf(s);
      FlatMembers(SortedKeys(s, sv2.levels.Keys), sv2, s, after.orders);
    }
  }

  /** Cancelling does its job if and only if the remembered slot is right. */
  lemma CancelWorksIffSafe(b: BookState, id: OrderId)
    requires GoodBook(b) && id in b.orders && b.orders[id].IsActive()
    ensures CancelWorks(b, id) <==> CancelSafe(b, id)
  {
    if CancelSafe(b, id) {
      SafeCancelWorks(b, id);
    } else if IsQueued(b, b.orders[id]) {
      StaleSlotBreaksBook(b, id);
    } else {
      StrangersSlotLosesStranger(b, id);
    }
  }
}
