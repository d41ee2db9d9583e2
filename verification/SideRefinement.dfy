/** Cancelling by slot against deletion by id, seen from the whole side. */
module SideRefinement {
  import opened Types
  import opened PriceKeys
  import opened OrderModel
  import opened LevelModel
  import opened SideModel
  import opened BookModel

  // The same prices and best price, one indistinguishable level at `p`, and equal levels elsewhere.
  ghost predicate SameSide(a: SideState, b: SideState, p: Price) {
    && a.side == b.side && a.levels.Keys == b.levels.Keys && a.best == b.best
    && (p in a.levels ==> SameLevel(a.levels[p], b.levels[p]))
    && forall q | q in a.levels && q != p :: a.levels[q] == b.levels[q]
  }

  lemma SameLiveQueue(a: seq<OrderId>, b: seq<OrderId>, orders: OrderMap)
    requires LiveIds(a) == LiveIds(b)
    ensures QueueOf(a, orders) == QueueOf(b, orders)
  {
    QueueOfLive(a, orders);
    QueueOfLive(b, orders);
  }

  lemma {:induction false} SameFlat(keys: seq<Price>, a: SideState, b: SideState, p: Price, orders: OrderMap)
    requires SameSide(a, b, p)
    ensures Flat(keys, a, orders) == Flat(keys, b, orders)
  {
    if keys != [] {
      SameFlat(keys[1..], a, b, p, orders);
      if keys[0] in a.levels {
        assert keys[0] in b.levels.Keys;
        assert keys[0] != p ==> a.levels[keys[0]] == b.levels[keys[0]];
        SameLiveQueue(a.levels[keys[0]].orders, b.levels[keys[0]].orders, orders);
      } else {
        assert keys[0] !in b.levels.Keys;
      }
    }
  }

  /** Sides that look the same list the same live orders, whatever is on record. */
  lemma SameSideSameLive(a: SideState, b: SideState, p: Price, orders: OrderMap)
    requires SameSide(a, b, p)
    ensures Live(a, orders) == Live(b, orders)
  {
    SameFlat(SortedKeys(a.side, a.levels.Keys), a, b, p, orders);
  }

  lemma GoodIsDistinct(l: LevelState, s: Side, p: Price, orders: OrderMap)
    requires GoodLevel(l, s, p, orders)
    ensures DistinctLive(l.orders) && l.tombstones == Zeros(l.orders)
  {
  }

  lemma RightSlotSameSide(sv: SideState, s: Side, p: Price, orders: OrderMap, id: OrderId, index: nat)
    requires GoodSide(sv, s, orders) && p in sv.levels
    requires index < |sv.levels[p].orders| && sv.levels[p].orders[index] == id != TOMBSTONE && id in orders
    ensures var quantity := orders[id].remaining;
            SameSide(MarkSlot(sv, p, index, quantity), RemoveOrder(sv, p, id, quantity), p)
  {
    var l, quantity := sv.levels[p], orders[id].remaining;
    assert GoodLevel(l, s, p, orders);
    GoodIsDistinct(l, s, p, orders);
    TombstoneRefinesRemove(l, id, index, quantity, []);
    var marked, removed := MarkTombstone(l, index, quantity), Remove(l, id, quantity);
    assert RunOps(marked, []).0 == marked && RunOps(removed, []).0 == removed;
    assert PutLevel(sv, p, marked).levels - {p} == PutLevel(sv, p, removed).levels - {p} by {
      var a, b := PutLevel(sv, p, marked).levels - {p}, PutLevel(sv, p, removed).levels - {p};
      assert forall q | q in a :: q in b && a[q] == b[q];
    }
  }

  lemma WrongSlotOtherSide(sv: SideState, s: Side, p: Price, orders: OrderMap, id: OrderId, index: nat)
    requires GoodSide(sv, s, orders) && p in sv.levels && id in orders
    requires id in sv.levels[p].orders && id != TOMBSTONE
    requires index >= |sv.levels[p].orders| || sv.levels[p].orders[index] != id
    ensures var quantity := orders[id].remaining;
            !SameSide(MarkSlot(sv, p, index, quantity), RemoveOrder(sv, p, id, quantity), p)
  {
    var l, quantity := sv.levels[p], orders[id].remaining;
    assert GoodLevel(l, s, p, orders);
    GoodIsDistinct(l, s, p, orders);
    TombstoneRefinesRemove(l, id, index, quantity, []);
    var marked := MarkTombstone(l, index, quantity);
    if index < |l.orders| && l.orders[index] != TOMBSTONE {
      TwoLiveOrdersOutweighOne(l, s, p, orders, index, id);
    }
    assert !marked.IsEmpty();
  }

  /** Tombstoning a slot leaves the prices, the best price and the live orders that deletion by id
      leaves, if and only if the slot holds the id. */
  lemma MarkSlotRefinesRemove(sv: SideState, s: Side, p: Price, orders: OrderMap, id: OrderId, index: nat)
    requires GoodSide(sv, s, orders) && p in sv.levels && id in orders
    requires id in sv.levels[p].orders && id != TOMBSTONE
    ensures var quantity := orders[id].remaining;
            var marked, removed := MarkSlot(sv, p, index, quantity), RemoveOrder(sv, p, id, quantity);
            var right := index < |sv.levels[p].orders| && sv.levels[p].orders[index] == id;
            && (SameSide(marked, removed, p) <==> right)
            && (right ==> forall record: OrderMap :: Live(marked, record) == Live(removed, record))
  {
    var quantity := orders[id].remaining;
    var marked, removed := MarkSlot(sv, p, index, quantity), RemoveOrder(sv, p, id, quantity);
    if index < |sv.levels[p].orders| && sv.levels[p].orders[index] == id {
      RightSlotSameSide(sv, s, p, orders, id, index);
      forall record: OrderMap ensures Live(marked, record) == Live(removed, record) {
        SameSideSameLive(marked, removed, p, record);
      }
    } else {
      WrongSlotOtherSide(sv, s, p, orders, id, index);
    }
  }
}
