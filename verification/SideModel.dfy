/** One side of the book: price levels with a cached best price. */
module SideModel {
  import opened Types
  import opened PriceKeys
  import opened OrderModel
  import opened LevelModel

  type OrderMap = map<OrderId, OrderState>

  datatype SideState = SideState(side: Side, levels: map<Price, LevelState>, best: Option<Price>)

  function NewSide(s: Side): SideState {
    SideState(s, map[], None)
  }

  // ---- operations -----------------------------------------------------

  function BestAfterInsert(sv: SideState, p: Price): Option<Price> {
    match sv.best
    case None => Some(p)
    case Some(b) => if Better(sv.side, p, b) then Some(p) else Some(b)
  }

  function GetOrCreate(sv: SideState, p: Price): SideState {
    if p in sv.levels then sv
    else sv.(best := BestAfterInsert(sv, p), levels := sv.levels[p := NewLevel(p)])
  }

  function PutLevel(sv: SideState, p: Price, l: LevelState): SideState {
    sv.(levels := sv.levels[p := l])
  }

  // The new side, and the slot the order was given: the raw queue length.
  function InsertOrder(sv: SideState, p: Price, id: OrderId, quantity: nat): (SideState, nat) {
    var made := GetOrCreate(sv, p);
    var l := made.levels[p];
    (PutLevel(made, p, PushBack(l, id, quantity)), |l.orders|)
  }

  ghost function RemoveLevel(sv: SideState, p: Price): SideState {
    if p !in sv.levels then sv
    else
      var rest := sv.levels - {p};
      sv.(levels := rest, best := if sv.best == Some(p) then BestKey(sv.side, rest.Keys) else sv.best)
  }

  // Stores `l` at `p`, and drops the level when nothing is left in it.
  ghost function PutOrDrop(sv: SideState, p: Price, l: LevelState): SideState {
    var put := PutLevel(sv, p, l);
    if l.IsEmpty() then RemoveLevel(put, p) else put
  }

  ghost function MarkSlot(sv: SideState, p: Price, index: nat, quantity: nat): SideState {
    if p !in sv.levels then sv
    else PutOrDrop(sv, p, MarkTombstone(sv.levels[p], index, quantity))
  }

  ghost function RemoveOrder(sv: SideState, p: Price, id: OrderId, quantity: nat): SideState {
    if p !in sv.levels || id !in sv.levels[p].orders then sv
    else PutOrDrop(sv, p, Remove(sv.levels[p], id, quantity))
  }

  function CompactSide(sv: SideState): SideState {
    sv.(levels := map p | p in sv.levels :: Compact(sv.levels[p]))
  }

  function SumTotals(keys: seq<Price>, levels: map<Price, LevelState>): nat {
    if keys == [] then 0
    else (if keys[0] in levels then levels[keys[0]].total else 0) + SumTotals(keys[1..], levels)
  }

  predicate AtOrBetter(s: Side, k: Price, p: Price) {
    k == p || Better(s, k, p)
  }

  ghost function QuantityAtOrBetter(sv: SideState, p: Price): nat {
    SumTotals(SortedKeys(sv.side, set k | k in sv.levels.Keys && AtOrBetter(sv.side, k, p)), sv.levels)
  }

  // ---- what a side shows: its live orders in price-time order ----------

  datatype Resting = Resting(id: OrderId, price: Price, quantity: nat, owner: Option<nat>)

  function RestingOf(o: OrderState): Resting {
    Resting(o.id, o.price, o.remaining, o.owner)
  }

  function QueueOf(queue: seq<OrderId>, orders: OrderMap): seq<Resting> {
    if queue == [] then []
    else
      (if queue[0] == TOMBSTONE || queue[0] !in orders then [] else [RestingOf(orders[queue[0]])]) +
      QueueOf(queue[1..], orders)
  }

  function SumQuantity(live: seq<Resting>): nat {
    if live == [] then 0 else live[0].quantity + SumQuantity(live[1..])
  }

  function At(sv: SideState, p: Price, orders: OrderMap): seq<Resting> {
    if p in sv.levels then QueueOf(sv.levels[p].orders, orders) else []
  }

  function Flat(keys: seq<Price>, sv: SideState, orders: OrderMap): seq<Resting> {
    if keys == [] then [] else At(sv, keys[0], orders) + Flat(keys[1..], sv, orders)
  }

  /** Every live order of the side, best price first, then queue order. */
  ghost function Live(sv: SideState, orders: OrderMap): seq<Resting> {
    Flat(SortedKeys(sv.side, sv.levels.Keys), sv, orders)
  }

  ghost function Above(sv: SideState, p: Price, orders: OrderMap): seq<Resting> {
    Flat(SortedKeys(sv.side, KeysAbove(sv.side, sv.levels.Keys, p)), sv, orders)
  }

  ghost function Below(sv: SideState, p: Price, orders: OrderMap): seq<Resting> {
    Flat(SortedKeys(sv.side, KeysBelow(sv.side, sv.levels.Keys, p)), sv, orders)
  }

  // ---- well-formedness -------------------------------------------------

  predicate Rests(o: OrderState, id: OrderId, s: Side, p: Price) {
    o.id == id && o.side == s && o.price == p && o.remaining > 0 && o.IsActive()
  }

  ghost predicate GoodQueue(queue: seq<OrderId>, s: Side, p: Price, orders: OrderMap) {
    && (forall k | 0 <= k < |queue| && queue[k] != TOMBSTONE ::
          queue[k] in orders && Rests(orders[queue[k]], queue[k], s, p))
    && (forall j, k | 0 <= j < k < |queue| && queue[j] != TOMBSTONE && queue[k] != TOMBSTONE ::
          queue[j] < queue[k])
  }

  ghost predicate GoodLevel(l: LevelState, s: Side, p: Price, orders: OrderMap) {
    && l.price == p
    && GoodQueue(l.orders, s, p, orders)
    && l.tombstones == Zeros(l.orders)
    && l.total == SumQuantity(QueueOf(l.orders, orders))
    && l.total > 0
  }

  ghost predicate GoodSide(sv: SideState, s: Side, orders: OrderMap) {
    && sv.side == s
    && sv.best == BestKey(s, sv.levels.Keys)
    && forall p | p in sv.levels :: GoodLevel(sv.levels[p], s, p, orders)
  }

  // ---- folds -----------------------------------------------------------

  lemma {:induction false} QueueConcat(a: seq<OrderId>, b: seq<OrderId>, orders: OrderMap)
    ensures QueueOf(a + b, orders) == QueueOf(a, orders) + QueueOf(b, orders)
  {
    if a == [] {
      assert a + b == b;
    } else {
      assert (a + b)[1..] == a[1..] + b;
      QueueConcat(a[1..], b, orders);
    }
  }

  lemma {:induction false} QueueFrame(queue: seq<OrderId>, o1: OrderMap, o2: OrderMap)
    requires forall x | x in queue && x != TOMBSTONE ::
               (x in o1 <==> x in o2) && (x in o1 ==> RestingOf(o1[x]) == RestingOf(o2[x]))
    ensures QueueOf(queue, o1) == QueueOf(queue, o2)
  {
    if queue != [] {
      assert queue[0] in queue;
      QueueFrame(queue[1..], o1, o2);
    }
  }

  lemma {:induction false} QueueOfPurged(queue: seq<OrderId>, orders: OrderMap)
    ensures QueueOf(Purge(queue), orders) == QueueOf(queue, orders)
  {
    if queue != [] && queue[0] == TOMBSTONE {
      QueueOfPurged(queue[1..], orders);
    }
  }

  lemma {:induction false} QueueOfLive(queue: seq<OrderId>, orders: OrderMap)
    ensures QueueOf(LiveIds(queue), orders) == QueueOf(queue, orders)
  {
    if queue != [] {
      QueueOfLive(queue[1..], orders);
      if queue[0] == TOMBSTONE {
        assert LiveIds(queue) == LiveIds(queue[1..]);
      } else {
        assert LiveIds(queue)[1..] == LiveIds(queue[1..]);
      }
    }
  }

  lemma {:induction false} SumConcat(a: seq<Resting>, b: seq<Resting>)
    ensures SumQuantity(a + b) == SumQuantity(a) + SumQuantity(b)
  {
    if a == [] {
      assert a + b == b;
    } else {
      assert (a + b)[1..] == a[1..] + b;
      SumConcat(a[1..], b);
    }
  }

  // An entry of the flattened queue is a live id of the queue.
  lemma {:induction false} QueueMembers(queue: seq<OrderId>, s: Side, p: Price, orders: OrderMap)
    requires GoodQueue(queue, s, p, orders)
    ensures forall k | 0 <= k < |QueueOf(queue, orders)| ::
              var r := QueueOf(queue, orders)[k];
              r.id != TOMBSTONE && r.id in queue && r == RestingOf(orders[r.id]) && r.price == p &&
              r.quantity > 0
    ensures forall x | x in queue && x != TOMBSTONE :: RestingOf(orders[x]) in QueueOf(queue, orders)
  {
    if queue != [] {
      assert GoodQueue(queue[1..], s, p, orders);
      QueueMembers(queue[1..], s, p, orders);
      assert queue == [queue[0]] + queue[1..];
      var rest := QueueOf(queue[1..], orders);
      if queue[0] != TOMBSTONE {
        assert QueueOf(queue, orders) == [RestingOf(orders[queue[0]])] + rest;
      } else {
        assert QueueOf(queue, orders) == rest;
      }
    }
  }

  lemma {:induction false} FlatConcat(a: seq<Price>, b: seq<Price>, sv: SideState, orders: OrderMap)
    ensures Flat(a + b, sv, orders) == Flat(a, sv, orders) + Flat(b, sv, orders)
  {
    if a == [] {
      assert a + b == b;
    } else {
      assert (a + b)[1..] == a[1..] + b;
      FlatConcat(a[1..], b, sv, orders);
    }
  }

  lemma {:induction false} FlatFrame(keys: seq<Price>, v1: SideState, o1: OrderMap, v2: SideState, o2: OrderMap)
    requires forall p | p in keys :: At(v1, p, o1) == At(v2, p, o2)
    ensures Flat(keys, v1, o1) == Flat(keys, v2, o2)
  {
    if keys != [] {
      assert keys[0] in keys;
      FlatFrame(keys[1..], v1, o1, v2, o2);
    }
  }

  lemma LiveSplit(sv: SideState, p: Price, orders: OrderMap)
    ensures Live(sv, orders) == Above(sv, p, orders) + At(sv, p, orders) + Below(sv, p, orders)
  {
    var keys := sv.levels.Keys;
    SplitKeys(sv.side, keys, p);
    var a, b := SortedKeys(sv.side, KeysAbove(sv.side, keys, p)), SortedKeys(sv.side, KeysBelow(sv.side, keys, p));
    var mid := if p in keys then [p] else [];
    FlatConcat(a, mid, sv, orders);
    FlatConcat(a + mid, b, sv, orders);
    assert Flat(mid, sv, orders) == At(sv, p, orders);
  }

  // A change confined to one price leaves the rest of the side where it was.
  lemma SidesAgreeOff(v1: SideState, o1: OrderMap, v2: SideState, o2: OrderMap, p: Price)
    requires v1.side == v2.side
    requires v1.levels.Keys - {p} == v2.levels.Keys - {p}
    requires forall q | q in v1.levels && q != p :: At(v1, q, o1) == At(v2, q, o2)
    ensures Above(v1, p, o1) == Above(v2, p, o2)
    ensures Below(v1, p, o1) == Below(v2, p, o2)
  {
    var s := v1.side;
    var up, down := KeysAbove(s, v1.levels.Keys, p), KeysBelow(s, v1.levels.Keys, p);
    forall q ensures q in v1.levels.Keys && q != p <==> q in v2.levels.Keys && q != p {
      assert q in v1.levels.Keys - {p} <==> q in v2.levels.Keys - {p};
    }
    assert up == KeysAbove(s, v2.levels.Keys, p);
    assert down == KeysBelow(s, v2.levels.Keys, p);
    SortedKeysFacts(s, up);
    SortedKeysFacts(s, down);
    FlatFrame(SortedKeys(s, up), v1, o1, v2, o2);
    FlatFrame(SortedKeys(s, down), v1, o1, v2, o2);
  }

  // `r` is what a reader sees of an order queued at its own price.
  predicate Shows(r: Resting, sv: SideState, orders: OrderMap) {
    && r.id != TOMBSTONE
    && r.price in sv.levels && r.id in sv.levels[r.price].orders
    && r.id in orders && r == RestingOf(orders[r.id])
    && r.quantity > 0
  }

  lemma {:induction false} FlatMembers(keys: seq<Price>, sv: SideState, s: Side, orders: OrderMap)
    requires GoodSide(sv, s, orders)
    ensures forall r | r in Flat(keys, sv, orders) :: r.price in keys && Shows(r, sv, orders)
  {
    if keys != [] {
      FlatMembers(keys[1..], sv, s, orders);
      var p := keys[0];
      if p in sv.levels {
        assert GoodLevel(sv.levels[p], s, p, orders);
        QueueMembers(sv.levels[p].orders, s, p, orders);
      }
      forall r | r in Flat(keys, sv, orders)
        ensures r.price in keys && Shows(r, sv, orders)
      {
        if r in Flat(keys[1..], sv, orders) {
          assert r.price in keys[1..];
        } else {
          assert r in At(sv, p, orders);
        }
      }
    }
  }

  // ---- what one update does to a side ----------------------------------

  // A level that may have nothing left in it.
  ghost predicate GoodOrEmpty(l: LevelState, s: Side, p: Price, orders: OrderMap) {
    && l.price == p
    && GoodQueue(l.orders, s, p, orders)
    && l.tombstones == Zeros(l.orders)
    && l.total == SumQuantity(QueueOf(l.orders, orders))
  }

  // No order queued away from `p` differs between the two maps.
  ghost predicate OthersKept(sv: SideState, p: Price, o1: OrderMap, o2: OrderMap) {
    forall q, x | q in sv.levels && q != p && x in sv.levels[q].orders && x != TOMBSTONE ::
      x in o1 && x in o2 && o1[x] == o2[x]
  }

  lemma OneOrderKeepsOthers(sv: SideState, s: Side, p: Price, orders: OrderMap, id: OrderId, o: OrderState)
    requires GoodSide(sv, s, orders)
    requires id !in orders || orders[id].side != s || orders[id].price == p
    ensures OthersKept(sv, p, orders, orders[id := o])
  {
    forall q, x | q in sv.levels && q != p && x in sv.levels[q].orders && x != TOMBSTONE
      ensures x in orders && x in orders[id := o] && orders[x] == orders[id := o][x]
    {
      assert GoodLevel(sv.levels[q], s, q, orders);
      var k :| 0 <= k < |sv.levels[q].orders| && sv.levels[q].orders[k] == x;
      assert Rests(orders[x], x, s, q);
    }
  }

  lemma LevelFrame(l: LevelState, s: Side, p: Price, o1: OrderMap, o2: OrderMap)
    requires GoodLevel(l, s, p, o1)
    requires forall x | x in l.orders && x != TOMBSTONE :: x in o1 && x in o2 && o1[x] == o2[x]
    ensures GoodLevel(l, s, p, o2)
    ensures QueueOf(l.orders, o1) == QueueOf(l.orders, o2)
  {
    QueueFrame(l.orders, o1, o2);
    forall k | 0 <= k < |l.orders| && l.orders[k] != TOMBSTONE
      ensures l.orders[k] in o2 && Rests(o2[l.orders[k]], l.orders[k], s, p)
    {
      assert l.orders[k] in l.orders;
    }
  }

  lemma OthersStayGood(sv: SideState, s: Side, p: Price, o1: OrderMap, o2: OrderMap)
    requires GoodSide(sv, s, o1) && OthersKept(sv, p, o1, o2)
    ensures forall q | q in sv.levels && q != p ::
              GoodLevel(sv.levels[q], s, q, o2) && At(sv, q, o1) == At(sv, q, o2)
  {
    forall q | q in sv.levels && q != p
      ensures GoodLevel(sv.levels[q], s, q, o2) && At(sv, q, o1) == At(sv, q, o2)
    {
      assert GoodLevel(sv.levels[q], s, q, o1);
      LevelFrame(sv.levels[q], s, q, o1, o2);
    }
  }

  lemma SideFrame(sv: SideState, s: Side, o1: OrderMap, o2: OrderMap)
    requires GoodSide(sv, s, o1)
    requires forall q, x | q in sv.levels && x in sv.levels[q].orders && x != TOMBSTONE ::
               x in o1 && x in o2 && o1[x] == o2[x]
    ensures GoodSide(sv, s, o2)
    ensures Live(sv, o1) == Live(sv, o2)
  {
    forall q | q in sv.levels
      ensures GoodLevel(sv.levels[q], s, q, o2) && At(sv, q, o1) == At(sv, q, o2)
    {
      assert GoodLevel(sv.levels[q], s, q, o1);
      LevelFrame(sv.levels[q], s, q, o1, o2);
    }
    SortedKeysFacts(s, sv.levels.Keys);
    FlatFrame(SortedKeys(s, sv.levels.Keys), sv, o1, sv, o2);
  }

  lemma OtherSideFrame(sv: SideState, s: Side, orders: OrderMap, id: OrderId, o: OrderState)
    requires GoodSide(sv, s, orders)
    requires id !in orders || orders[id].side != s
    ensures GoodSide(sv, s, orders[id := o])
    ensures Live(sv, orders[id := o]) == Live(sv, orders)
  {
    forall q, x | q in sv.levels && x in sv.levels[q].orders && x != TOMBSTONE
      ensures x in orders && x in orders[id := o] && orders[x] == orders[id := o][x]
    {
      assert GoodLevel(sv.levels[q], s, q, orders);
      var k :| 0 <= k < |sv.levels[q].orders| && sv.levels[q].orders[k] == x;
      assert Rests(orders[x], x, s, q);
    }
    SideFrame(sv, s, orders, orders[id := o]);
  }

  lemma EmptyTotalMeansEmptyQueue(l: LevelState, s: Side, p: Price, orders: OrderMap)
    requires GoodOrEmpty(l, s, p, orders)
    ensures l.total == 0 <==> QueueOf(l.orders, orders) == []
  {
    QueueMembers(l.orders, s, p, orders);
    var shown := QueueOf(l.orders, orders);
    if shown != [] {
      assert shown[0].quantity > 0;
    }
  }

  lemma PutOrDropLive(sv: SideState, s: Side, p: Price, o1: OrderMap, l: LevelState, o2: OrderMap)
    requires GoodSide(sv, s, o1) && p in sv.levels
    requires GoodOrEmpty(l, s, p, o2) && OthersKept(sv, p, o1, o2)
    ensures var after := PutOrDrop(sv, p, l);
            && GoodSide(after, s, o2)
            && after.levels.Keys == (if l.IsEmpty() then sv.levels.Keys - {p} else sv.levels.Keys)
            && (p in after.levels ==> after.best == sv.best)
            && Live(after, o2) == Above(sv, p, o1) + QueueOf(l.orders, o2) + Below(sv, p, o1)
  {
    var after := PutOrDrop(sv, p, l);
    OthersStayGood(sv, s, p, o1, o2);
    EmptyTotalMeansEmptyQueue(l, s, p, o2);
    var keys := sv.levels.Keys;
    assert after.levels.Keys == if l.IsEmpty() then keys - {p} else keys;
    if l.IsEmpty() && sv.best != Some(p) {
      BestIsUnique(s, keys - {p}, sv.best.value);
    }
    assert GoodSide(after, s, o2);
    SidesAgreeOff(sv, o1, after, o2, p);
    LiveSplit(after, p, o2);
  }

  // The level at the best price heads the side.
  lemma NothingAboveBest(sv: SideState, s: Side, p: Price, orders: OrderMap)
    requires GoodSide(sv, s, orders) && sv.best == Some(p)
    ensures p in sv.levels && Above(sv, p, orders) == []
    ensures Live(sv, orders) == At(sv, p, orders) + Below(sv, p, orders)
  {
    assert KeysAbove(s, sv.levels.Keys, p) == {};
    LiveSplit(sv, p, orders);
  }

  // ---- resting an order -------------------------------------------------

  // Where price-time priority puts a newcomer: behind every equal or better price.
  function InsertByPriority(s: Side, live: seq<Resting>, r: Resting): seq<Resting> {
    if live == [] || Better(s, r.price, live[0].price) then [r] + live
    else [live[0]] + InsertByPriority(s, live[1..], r)
  }

  lemma {:induction false} InsertPasses(s: Side, a: seq<Resting>, b: seq<Resting>, r: Resting)
    requires forall x | x in a :: !Better(s, r.price, x.price)
    requires b != [] ==> Better(s, r.price, b[0].price)
    ensures InsertByPriority(s, a + b, r) == a + [r] + b
  {
    if a == [] {
      assert a + b == b;
    } else {
      assert a[0] in a;
      assert (a + b)[1..] == a[1..] + b;
      InsertPasses(s, a[1..], b, r);
    }
  }

  lemma QueueBounds(queue: seq<OrderId>, s: Side, p: Price, orders: OrderMap, bound: nat)
    requires GoodQueue(queue, s, p, orders)
    requires forall x | x in orders :: x < bound
    ensures forall k | 0 <= k < |queue| && queue[k] != TOMBSTONE :: queue[k] < bound
  {
  }

  lemma PushedQueue(queue: seq<OrderId>, s: Side, p: Price, orders: OrderMap, id: OrderId, o: OrderState)
    requires GoodQueue(queue, s, p, orders)
    requires id != TOMBSTONE && forall x | x in orders :: x < id
    requires Rests(o, id, s, p)
    ensures GoodQueue(queue + [id], s, p, orders[id := o])
    ensures QueueOf(queue + [id], orders[id := o]) == QueueOf(queue, orders) + [RestingOf(o)]
  {
    var o2 := orders[id := o];
    QueueBounds(queue, s, p, orders, id);
    QueueFrame(queue, orders, o2);
    QueueConcat(queue, [id], o2);
    assert QueueOf([id], o2) == [RestingOf(o)];
  }

  lemma PushedLevel(l: LevelState, s: Side, p: Price, orders: OrderMap, id: OrderId, o: OrderState)
    requires GoodOrEmpty(l, s, p, orders)
    requires id != TOMBSTONE && forall x | x in orders :: x < id
    requires Rests(o, id, s, p)
    ensures GoodLevel(PushBack(l, id, o.remaining), s, p, orders[id := o])
    ensures QueueOf(l.orders + [id], orders[id := o]) == QueueOf(l.orders, orders) + [RestingOf(o)]
  {
    PushedQueue(l.orders, s, p, orders, id, o);
    SumConcat(QueueOf(l.orders, orders), [RestingOf(o)]);
    LiveConcat(l.orders, [id]);
  }

  lemma GetOrCreateKeeps(sv: SideState, s: Side, p: Price, orders: OrderMap)
    requires GoodSide(sv, s, orders)
    ensures var made := GetOrCreate(sv, p);
            && made.side == s
            && made.levels.Keys == sv.levels.Keys + {p}
            && made.best == BestKey(s, made.levels.Keys)
            && GoodOrEmpty(made.levels[p], s, p, orders)
            && QueueOf(made.levels[p].orders, orders) == At(sv, p, orders)
            && forall q | q in sv.levels :: made.levels[q] == sv.levels[q]
  {
    var made := GetOrCreate(sv, p);
    var keys := sv.levels.Keys;
    if p in sv.levels {
      assert keys + {p} == keys;
      assert GoodLevel(sv.levels[p], s, p, orders);
    } else {
      assert made.levels.Keys == keys + {p};
      if sv.best.Some? {
        BestIsUnique(s, keys + {p}, made.best.value);
      } else {
        assert keys + {p} == {p};
        BestIsUnique(s, {p}, p);
      }
    }
  }

  lemma PricesAround(sv: SideState, s: Side, p: Price, orders: OrderMap)
    requires GoodSide(sv, s, orders)
    ensures forall x | x in Above(sv, p, orders) :: Better(s, x.price, p)
    ensures forall x | x in At(sv, p, orders) :: x.price == p
    ensures forall x | x in Below(sv, p, orders) :: Better(s, p, x.price)
  {
    var up, down := KeysAbove(s, sv.levels.Keys, p), KeysBelow(s, sv.levels.Keys, p);
    SortedKeysFacts(s, up);
    SortedKeysFacts(s, down);
    FlatMembers(SortedKeys(s, up), sv, s, orders);
    FlatMembers(SortedKeys(s, down), sv, s, orders);
    if p in sv.levels {
      assert GoodLevel(sv.levels[p], s, p, orders);
      QueueMembers(sv.levels[p].orders, s, p, orders);
    }
  }

  lemma InsertKeepsSide(sv: SideState, s: Side, orders: OrderMap, id: OrderId, o: OrderState)
    requires GoodSide(sv, s, orders)
    requires id != TOMBSTONE && forall x | x in orders :: x < id
    requires Rests(o, id, s, o.price)
    ensures var after := InsertOrder(sv, o.price, id, o.remaining).0;
            && GoodSide(after, s, orders[id := o])
            && after.levels.Keys == sv.levels.Keys + {o.price}
            && At(after, o.price, orders[id := o]) == At(sv, o.price, orders) + [RestingOf(o)]
            && Above(after, o.price, orders[id := o]) == Above(sv, o.price, orders)
            && Below(after, o.price, orders[id := o]) == Below(sv, o.price, orders)
  {
    var p := o.price;
    var made := GetOrCreate(sv, p);
    GetOrCreateKeeps(sv, s, p, orders);
    PushedLevel(made.levels[p], s, p, orders, id, o);
    var after := InsertOrder(sv, p, id, o.remaining).0;
    assert after.levels.Keys == sv.levels.Keys + {p};
    OneOrderKeepsOthers(sv, s, p, orders, id, o);
    OthersStayGood(sv, s, p, orders, orders[id := o]);
    SidesAgreeOff(sv, orders, after, orders[id := o], p);
  }

  /** Resting an order puts it exactly where price-time priority says. */
  lemma InsertLive(sv: SideState, s: Side, orders: OrderMap, id: OrderId, o: OrderState)
    requires GoodSide(sv, s, orders)
    requires id != TOMBSTONE && forall x | x in orders :: x < id
    requires Rests(o, id, s, o.price)
    ensures Live(InsertOrder(sv, o.price, id, o.remaining).0, orders[id := o]) ==
            InsertByPriority(s, Live(sv, orders), RestingOf(o))
  {
    var p := o.price;
    var after := InsertOrder(sv, p, id, o.remaining).0;
    InsertKeepsSide(sv, s, orders, id, o);
    LiveSplit(sv, p, orders);
    LiveSplit(after, p, orders[id := o]);
    PricesAround(sv, s, p, orders);
    var a, m, b := Above(sv, p, orders), At(sv, p, orders), Below(sv, p, orders);
    InsertBetween(s, a, m, b, RestingOf(o));
  }

  lemma InsertBetween(s: Side, a: seq<Resting>, m: seq<Resting>, b: seq<Resting>, r: Resting)
    requires forall x | x in a :: Better(s, x.price, r.price)
    requires forall x | x in m :: x.price == r.price
    requires forall x | x in b :: Better(s, r.price, x.price)
    ensures InsertByPriority(s, a + m + b, r) == a + (m + [r]) + b
  {
    assert b != [] ==> b[0] in b;
    InsertPasses(s, a + m, b, r);
  }

  // ---- cancelling an order ----------------------------------------------

  function Without(live: seq<Resting>, id: OrderId): seq<Resting> {
    if live == [] then []
    else (if live[0].id == id then [] else [live[0]]) + Without(live[1..], id)
  }

  lemma {:induction false} WithoutConcat(a: seq<Resting>, b: seq<Resting>, id: OrderId)
    ensures Without(a + b, id) == Without(a, id) + Without(b, id)
  {
    if a == [] {
      assert a + b == b;
    } else {
      assert (a + b)[1..] == a[1..] + b;
      WithoutConcat(a[1..], b, id);
    }
  }

  lemma {:induction false} WithoutAbsent(live: seq<Resting>, id: OrderId)
    requires forall x | x in live :: x.id != id
    ensures Without(live, id) == live
  {
    if live != [] {
      assert live[0] in live;
      WithoutAbsent(live[1..], id);
    }
  }

  lemma {:induction false} WithoutGone(live: seq<Resting>, id: OrderId)
    ensures forall x | x in Without(live, id) :: x.id != id && x in live
  {
    if live != [] {
      WithoutGone(live[1..], id);
    }
  }
}
