/** The order book as the engine keeps it, and its matching loops. */
module EngineBook {
  import opened Types
  import opened PriceKeys
  import opened OrderModel
  import opened LevelModel
  import opened SideModel
  import opened BookModel
  import opened PriceTime
  import opened MatchModel
  import opened Matching
  import opened ExchangeModel
  import opened Submission
  import opened EngineLevel
  import opened EngineOrder
  import opened EngineSide

  lemma SameOrders(a: OrderMap, b: OrderMap)
    requires a.Keys == b.Keys && forall id | id in a :: a[id] == b[id]
    ensures a == b
  {
    assert forall id | id in a :: id in b && a[id] == b[id];
  }

  lemma SameSize<T>(a: OrderMap, b: map<OrderId, T>)
    requires a.Keys == b.Keys
    ensures |a| == |b|
  {
    assert |a.Keys| == |a| && |b.Keys| == |b|;
  }

  // A trade is its entry in the records followed by its effect on the level.
  lemma TradeAssembled(b: BookState, o: OrderState, p: Price, id: OrderId, quantity: nat, booked: BookState)
    requires id in b.orders && p in b.SideOf(o.side.Opposite()).levels
    requires quantity == Min(o.remaining, b.orders[id].remaining)
    requires booked == b.(nextTradeId := b.nextTradeId + 1, nextTimestamp := b.nextTimestamp + 1,
                          orders := b.orders[id := b.orders[id].Fill(quantity)])
    ensures var s := o.side.Opposite();
            var after := MatchModel.TradeFront(Start(b, o), p, id);
            && after.book ==
               booked.WithSide(s, LevelTraded(booked.SideOf(s), p, quantity, booked.orders[id].remaining == 0))
            && after.incoming == o.Fill(quantity)
            && after.trades == [Trade(b.nextTradeId, p, quantity, o.id, id, o.side, b.nextTimestamp)]
  {
  }

  class OrderBook {
    const bids: PriceLevels
    const asks: PriceLevels
    var orders: map<OrderId, Order>
    var nextOrderId: nat
    var nextTradeId: nat
    var nextTimestamp: nat

    function SideOf(s: Side): PriceLevels {
      if s.Buy? then bids else asks
    }

    ghost predicate Valid()
      reads this, bids, asks
    {
      && bids.side == Buy && asks.side == Sell && bids.Valid() && asks.Valid()
      && bids.levels.Values !! asks.levels.Values
      && nextOrderId > 0
      && forall id | id in orders :: orders[id].id == id && 0 < id < nextOrderId
    }

    ghost function Repr(): set<object>
      reads this, bids, asks
    {
      {this, bids, asks} + bids.levels.Values + asks.levels.Values + orders.Values
    }

    ghost function Orders(): OrderMap
      reads this, orders.Values
    {
      map id | id in orders :: orders[id].Abs()
    }

    ghost function Abs(): BookState
      reads this, bids, asks, bids.levels.Values, asks.levels.Values, orders.Values
    {
      BookState(bids.Abs(), asks.Abs(), Orders(), nextOrderId, nextTradeId, nextTimestamp)
    }

    constructor ()
      ensures Valid() && fresh(Repr()) && Abs() == NewBook()
    {
      bids := new PriceLevels(Buy);
      asks := new PriceLevels(Sell);
      orders := map[];
      nextOrderId, nextTradeId, nextTimestamp := 1, 1, 1;
      new;
      SameOrders(Orders(), map[]);
    }

    method CreateOrder(s: Side, price: Price, quantity: nat, tif: TimeInForce) returns (o: Order)
      requires Valid()
      modifies this`nextOrderId, this`nextTimestamp
      ensures Valid() && fresh(o) && Repr() == old(Repr())
      ensures Abs() == BookModel.CreateOrder(old(Abs()), s, price, quantity, tif).0
      ensures o.Abs() == BookModel.CreateOrder(old(Abs()), s, price, quantity, tif).1
    {
      ghost var before := Abs();
      o := new Order(nextOrderId, s, price, quantity, nextTimestamp, tif);
      nextOrderId := nextOrderId + 1;
      nextTimestamp := nextTimestamp + 1;
      SameOrders(Orders(), before.orders);
    }

    method StoreOrder(o: Order)
      requires Valid() && 0 < o.id < nextOrderId
      modifies this`orders
      ensures Valid() && Repr() <= old(Repr()) + {o}
      ensures orders == old(orders)[o.id := o]
      ensures Abs() == BookModel.StoreOrder(old(Abs()), o.Abs())
    {
      ghost var before := Orders();
      orders := orders[o.id := o];
      SameOrders(Orders(), before[o.id := o.Abs()]);
    }

    // ---- single steps on the record and on the sides --------------------------

    method RecordCancel(id: OrderId) returns (remaining: nat)
      requires Valid() && id in orders && orders[id].status.IsActive()
      modifies orders[id]
      ensures Abs() == BookModel.StoreOrder(old(Abs()), old(orders[id].Abs()).Cancel())
      ensures remaining == old(orders[id].remaining)
    {
      ghost var before, was := Abs(), orders[id].Abs();
      remaining := orders[id].Cancel();
      SameOrders(Orders(), before.orders[id := was.Cancel()]);
    }

    method RecordFill(id: OrderId, quantity: nat)
      requires Valid() && id in orders && quantity <= orders[id].remaining
      modifies orders[id]
      ensures Abs() == old(Abs()).(orders := old(Abs()).orders[id := old(orders[id].Abs()).Fill(quantity)])
      ensures orders[id].remaining == old(orders[id].remaining) - quantity
    {
      ghost var before, was := Abs(), orders[id].Abs();
      orders[id].Fill(quantity);
      SameOrders(Orders(), before.orders[id := was.Fill(quantity)]);
    }

    method InsertOn(s: Side, p: Price, id: OrderId, quantity: nat) returns (slot: nat)
      requires Valid() && id != TOMBSTONE
      modifies SideOf(s), SideOf(s).levels.Values
      ensures Valid() && forall x | x in Repr() :: x in old(Repr()) || fresh(x)
      ensures var (sv, k) := SideModel.InsertOrder(old(Abs()).SideOf(s), p, id, quantity);
              Abs() == old(Abs()).WithSide(s, sv) && slot == k
    {
      ghost var before := Abs();
      slot := SideOf(s).InsertOrder(p, id, quantity);
      SameOrders(Orders(), before.orders);
    }

    method TombstoneOn(s: Side, p: Price, index: nat, quantity: nat)
      requires Valid()
      modifies SideOf(s), SideOf(s).levels.Values
      ensures Valid() && Repr() <= old(Repr())
      ensures Abs() == old(Abs()).WithSide(s, MarkSlot(old(Abs()).SideOf(s), p, index, quantity))
    {
      ghost var before := Abs();
      SideOf(s).MarkTombstone(p, index, quantity);
      SameOrders(Orders(), before.orders);
    }

    // ---- orders ----------------------------------------------------------------

    // The source panics on an id already on record; ids come from `CreateOrder`.
    method AddOrder(o: Order)
      requires Valid() && o !in Repr() && o.id !in orders && 0 < o.id < nextOrderId
      modifies Repr(), o
      ensures Valid() && forall x | x in Repr() :: x in old(Repr()) || x == o || fresh(x)
      ensures Abs() == BookModel.AddOrder(old(Abs()), old(o.Abs()))
    {
      var slot := InsertOn(o.side, o.price, o.id, o.remaining);
      ghost var inserted := Abs();
      o.position := slot;
      assert Abs() == inserted by {
        SameOrders(Orders(), inserted.orders);
      }
      StoreOrder(o);
    }

    method CancelOrder(id: OrderId) returns (cancelled: Option<nat>)
      requires Valid()
      modifies Repr()
      ensures Valid() && Repr() <= old(Repr()) && orders == old(orders)
      ensures Abs() == BookModel.CancelOrder(old(Abs()), id).0
      ensures cancelled == BookModel.CancelOrder(old(Abs()), id).1
    {
      if id !in orders || !orders[id].status.IsActive() {
        return None;
      }
      var o := orders[id];
      var remaining := RecordCancel(id);
      TombstoneOn(o.side, o.price, o.position, remaining);
      return Some(remaining);
    }

    // ---- matching ----------------------------------------------------------------

    method FrontOn(s: Side, p: Price) returns (id: Option<OrderId>)
      requires Valid() && p in SideOf(s).levels
      modifies SideOf(s).levels[p]
      ensures Abs() == PurgeAt(old(Abs()), s, p)
      ensures id == FrontId(old(Abs()).SideOf(s).levels[p])
    {
      ghost var before := Abs();
      id := SideOf(s).FrontAt(p);
      SameOrders(Orders(), before.orders);
    }

    method TradeOn(s: Side, p: Price, quantity: nat, filled: bool)
      requires Valid() && p in SideOf(s).levels
      modifies SideOf(s), SideOf(s).levels[p]
      ensures Valid() && Repr() <= old(Repr())
      ensures Abs() == old(Abs()).WithSide(s, LevelTraded(old(Abs()).SideOf(s), p, quantity, filled))
    {
      ghost var before := Abs();
      SideOf(s).TradeAt(p, quantity, filled);
      SameOrders(Orders(), before.orders);
    }

    method NextTrade() returns (tradeId: nat, timestamp: nat)
      requires Valid()
      modifies this`nextTradeId, this`nextTimestamp
      ensures Abs() == old(Abs()).(nextTradeId := nextTradeId, nextTimestamp := nextTimestamp)
      ensures tradeId == old(nextTradeId) && nextTradeId == tradeId + 1
      ensures timestamp == old(nextTimestamp) && nextTimestamp == timestamp + 1
    {
      ghost var before := Abs();
      tradeId, timestamp := nextTradeId, nextTimestamp;
      nextTradeId, nextTimestamp := nextTradeId + 1, nextTimestamp + 1;
      SameOrders(Orders(), before.orders);
    }

    // The book once a trade of `quantity` has used up a trade id and a timestamp and
    // filled both orders.
    method BookTrade(incoming: Order, p: Price, id: OrderId, quantity: nat) returns (t: Trade)
      requires Valid() && incoming !in orders.Values && id in orders
      requires quantity <= incoming.remaining && quantity <= orders[id].remaining
      modifies this`nextTradeId, this`nextTimestamp, incoming, orders[id]
      ensures Valid() && Repr() == old(Repr()) && orders == old(orders)
      ensures t == Trade(old(nextTradeId), p, quantity, incoming.id, id, incoming.side, old(nextTimestamp))
      ensures incoming.Abs() == old(incoming.Abs()).Fill(quantity)
      ensures orders[id].remaining == old(orders[id].remaining) - quantity
      ensures Abs() == old(Abs()).(nextTradeId := old(nextTradeId) + 1, nextTimestamp := old(nextTimestamp) + 1,
                                   orders := old(Abs()).orders[id := old(orders[id].Abs()).Fill(quantity)])
    {
      var tradeId, timestamp := NextTrade();
      t := Trade(tradeId, p, quantity, incoming.id, id, incoming.side, timestamp);
      ghost var counted := Abs();
      incoming.Fill(quantity);
      assert Abs() == counted by {
        SameOrders(Orders(), counted.orders);
      }
      RecordFill(id, quantity);
    }

    // One trade between `incoming` and the order at the front of the level at `p`.
    method TradeFront(incoming: Order, p: Price, id: OrderId) returns (t: Trade)
      requires Valid() && incoming !in orders.Values && id in orders
      requires p in SideOf(incoming.side.Opposite()).levels
      modifies Repr(), incoming
      ensures Valid() && Repr() <= old(Repr()) && orders == old(orders)
      ensures var after := MatchModel.TradeFront(Start(old(Abs()), old(incoming.Abs())), p, id);
              Abs() == after.book && incoming.Abs() == after.incoming && [t] == after.trades
    {
      hide MatchModel.TradeFront, LevelTraded;
      ghost var before, taker := Abs(), incoming.Abs();
      var s, quantity := incoming.side.Opposite(), Min(incoming.remaining, orders[id].remaining);
      assert id in before.orders && before.orders[id] == orders[id].Abs() && p in before.SideOf(s).levels;
      assert quantity == Min(taker.remaining, before.orders[id].remaining);
      hide Abs, Orders, Min;
      t := BookTrade(incoming, p, id, quantity);
      ghost var booked, taken := Abs(), incoming.Abs();
      assert booked.orders[id].remaining == orders[id].remaining;
      TradeOn(s, p, quantity, orders[id].remaining == 0);
      assert incoming.Abs() == taken;
      TradeAssembled(before, taker, p, id, quantity, booked);
    }

    // Self-trade prevention gives up what is left of the taker.
    method YieldTaker(incoming: Order)
      requires Valid() && incoming !in orders.Values
      modifies incoming
      ensures Abs() == old(Abs())
      ensures incoming.Abs() == old(incoming.Abs()).StpDecrement(old(incoming.remaining))
    {
      ghost var before := Abs();
      incoming.StpDecrement(incoming.remaining);
      SameOrders(Orders(), before.orders);
    }

    // The taker meets the front order: self-trade prevention, or a trade.
    method MeetFront(incoming: Order, p: Price, id: OrderId, policy: StpPolicy)
      returns (trades: seq<Trade>, yielded: bool)
      requires Valid() && incoming !in orders.Values && id in orders
      requires p in SideOf(incoming.side.Opposite()).levels
      modifies Repr(), incoming
      ensures Valid() && Repr() <= old(Repr()) && orders == old(orders)
      ensures MatchModel.MeetFront(Start(old(Abs()), old(incoming.Abs())).(at := Some(p)), p, id, policy) ==
              MatchState(Abs(), incoming.Abs(), trades, yielded, if yielded then None else Some(p), false)
    {
      hide MatchModel.MeetFront, MatchModel.TradeFront, BookModel.CancelOrder;
      MeetFrontCases(Abs(), incoming.Abs(), p, id, policy);
      if Conflict(policy, incoming.owner, orders[id].owner) {
        if TakerYields(policy, incoming.remaining, orders[id].remaining) {
          YieldTaker(incoming);
          return [], true;
        }
        ghost var taken := incoming.Abs();
        var cancelled := CancelOrder(id);
        assert incoming.Abs() == taken;
        return [], false;
      }
      var t := TradeFront(incoming, p, id);
      return [t], false;
    }

    // An id in the queue with no order on record is dropped.
    method PopOrphanOn(s: Side, p: Price)
      requires Valid() && p in SideOf(s).levels
      modifies SideOf(s).levels[p]
      ensures Abs() == old(Abs()).WithSide(s, PutLevel(old(Abs()).SideOf(s), p,
                                                       LevelModel.PopFront(old(Abs()).SideOf(s).levels[p], 0)))
    {
      ghost var before := Abs();
      SideOf(s).PopFrontAt(p, 0);
      SameOrders(Orders(), before.orders);
    }

    // One turn of the inner loop at a level that is there.
    method MatchTurn(incoming: Order, p: Price, policy: StpPolicy, soFar: seq<Trade>)
      returns (trades: seq<Trade>, yielded: bool, exhausted: bool)
      requires Valid() && incoming !in orders.Values
      requires incoming.remaining > 0 && p in SideOf(incoming.side.Opposite()).levels
      modifies Repr(), incoming
      ensures Valid() && Repr() <= old(Repr()) && orders == old(orders)
      ensures MatchState(Abs(), incoming.Abs(), trades, yielded, if yielded || exhausted then None else Some(p),
                         false) ==
              Step(MatchState(old(Abs()), old(incoming.Abs()), soFar, false, Some(p), false), policy)
    {
      var s := incoming.side.Opposite();
      trades, yielded, exhausted := soFar, false, false;
      ghost var before, taken := Abs(), incoming.Abs();
      var front := FrontOn(s, p);
      assert incoming.Abs() == taken;
      match front {
        case None =>
          exhausted := true;
        case Some(id) =>
          if id !in orders {
            PopOrphanOn(s, p);
            assert incoming.Abs() == taken;
            PopOfPurged(before, s, p);
          } else {
            TradesAccumulate(MatchState(Abs(), taken, soFar, false, Some(p), false), p, id, policy);
            var more;
            more, yielded := MeetFront(incoming, p, id, policy);
            trades := soFar + more;
          }
      }
    }

    /** The inner loop: matches at one price until the level or the taker is exhausted, or
        self-trade prevention takes the taker off. It is called only where the source's loops
        end. `n` counts the turns. */
    method MatchAtPrice(incoming: Order, p: Price, policy: StpPolicy, soFar: seq<Trade>)
      returns (trades: seq<Trade>, stpCancelled: bool, ghost n: nat)
      requires Valid() && incoming !in orders.Values
      requires Terminates(MatchState(Abs(), incoming.Abs(), soFar, false, Some(p), false), policy)
      modifies Repr(), incoming
      ensures Valid() && Repr() <= old(Repr()) && orders == old(orders) && n > 0
      ensures Iterate(MatchState(old(Abs()), old(incoming.Abs()), soFar, false, Some(p), false), policy, n) ==
              MatchState(Abs(), incoming.Abs(), trades, stpCancelled, None, false)
    {
      hide Orders, EndOf, Repr;
      trades, stpCancelled, n := soFar, false, 0;
      ghost var m := MatchState(Abs(), incoming.Abs(), soFar, false, Some(p), false);
      ghost var cur, end := m, EndOf(m, policy);
      while incoming.remaining > 0
        invariant Valid() && Repr() <= old(Repr()) && orders == old(orders)
        invariant !stpCancelled && cur == MatchState(Abs(), incoming.Abs(), trades, false, Some(p), false)
        invariant cur == Iterate(m, policy, n)
        decreases end - n
      {
        Turn(m, cur, policy, n, end);
        if p !in SideOf(incoming.side.Opposite()).levels {
          break;
        }
        var yielded, exhausted;
        trades, yielded, exhausted := MatchTurn(incoming, p, policy, trades);
        cur, n := Step(cur, policy), n + 1;
        if yielded || exhausted {
          stpCancelled := yielded;
          return;
        }
      }
      Turn(m, cur, policy, n, end);
      n := n + 1;
    }

    /** The outer loop: level by level from the best price, until nothing crosses. */
    method MatchOrderWithPolicy(incoming: Order, policy: StpPolicy) returns (trades: seq<Trade>, stpCancelled: bool)
      requires Valid() && incoming !in orders.Values
      requires Terminates(Start(Abs(), incoming.Abs()), policy)
      modifies Repr(), incoming
      ensures Valid() && Repr() <= old(Repr()) && orders == old(orders)
      ensures Finish(Start(old(Abs()), old(incoming.Abs())), policy) ==
              MatchState(Abs(), incoming.Abs(), trades, stpCancelled, None, true)
    {
      trades, stpCancelled := [], false;
      ghost var m := Start(Abs(), incoming.Abs());
      ghost var cur, n, end := m, 0, EndOf(m, policy);
      while incoming.remaining > 0
        invariant Valid() && Repr() <= old(Repr()) && orders == old(orders)
        invariant !stpCancelled && cur == MatchState(Abs(), incoming.Abs(), trades, false, None, false)
        invariant cur == Iterate(m, policy, n) && n <= end
        decreases end - n
      {
        Turn(m, cur, policy, n, end);
        var best := SideOf(incoming.side.Opposite()).best;
        if best.None? || !Crosses(incoming.side, incoming.price, best.value) {
          break;
        }
        EndsLater(m, policy, n + 1);
        ghost var k := 0;
        trades, stpCancelled, k := MatchAtPrice(incoming, best.value, policy, trades);
        IterateAdds(m, policy, n + 1, k);
        cur, n := MatchState(Abs(), incoming.Abs(), trades, stpCancelled, None, false), n + 1 + k;
        Turn(m, cur, policy, n, end);
        if stpCancelled {
          break;
        }
      }
      Ended(m, cur, policy, n);
    }

    // Creates an order and matches it; the caller disposes of what is left.
    method MatchNew(s: Side, price: Price, quantity: nat, tif: TimeInForce, owner: Option<nat>, policy: StpPolicy)
      returns (o: Order, trades: seq<Trade>, stpCancelled: bool)
      requires Valid()
      requires Terminates(Start(BookModel.CreateOrder(Abs(), s, price, quantity, tif).0,
                                Incoming(Abs(), s, price, quantity, tif, owner)), policy)
      modifies Repr()
      ensures Valid() && Repr() <= old(Repr()) && orders == old(orders) && fresh(o) && o !in Repr()
      ensures o.id !in orders && 0 < o.id < nextOrderId
      ensures Finish(Start(BookModel.CreateOrder(old(Abs()), s, price, quantity, tif).0,
                           Incoming(old(Abs()), s, price, quantity, tif, owner)), policy) ==
              MatchState(Abs(), o.Abs(), trades, stpCancelled, None, true)
    {
      o := CreateOrder(s, price, quantity, tif);
      ghost var made := Abs();
      o.owner := owner;
      assert Abs() == made by {
        SameOrders(Orders(), made.orders);
      }
      ghost var start, id := Start(Abs(), o.Abs()), o.id;
      trades, stpCancelled := MatchOrderWithPolicy(o, policy);
      MatchingKeepsId(start, policy);
    }

    method StoreAs(o: Order, status: OrderStatus)
      requires Valid() && o !in Repr() && 0 < o.id < nextOrderId
      modifies this`orders, o
      ensures Valid() && Repr() <= old(Repr()) + {o} && o.status == status
      ensures Abs() == BookModel.StoreOrder(old(Abs()), old(o.Abs()).(status := status))
    {
      ghost var before := Abs();
      o.status := status;
      assert Abs() == before by {
        SameOrders(Orders(), before.orders);
      }
      StoreOrder(o);
    }

    method RestAs(o: Order, status: OrderStatus)
      requires Valid() && o !in Repr() && o.id !in orders && 0 < o.id < nextOrderId
      modifies Repr(), o
      ensures Valid() && forall x | x in Repr() :: x in old(Repr()) || x == o || fresh(x)
      ensures Abs() == BookModel.AddOrder(old(Abs()), old(o.Abs()).(status := status))
    {
      ghost var before := Abs();
      o.status := status;
      assert Abs() == before by {
        SameOrders(Orders(), before.orders);
      }
      AddOrder(o);
    }

    method AvailableToFill(s: Side, price: Price) returns (quantity: nat)
      requires Valid()
      ensures quantity == SideModel.QuantityAtOrBetter(Abs().SideOf(s.Opposite()), price)
    {
      quantity := SideOf(s.Opposite()).QuantityAtOrBetter(price);
    }

    method CanFullyFill(s: Side, price: Price, quantity: nat) returns (enough: bool)
      requires Valid()
      ensures enough <==> SideModel.QuantityAtOrBetter(Abs().SideOf(s.Opposite()), price) >= quantity
    {
      var available := AvailableToFill(s, price);
      enough := available >= quantity;
    }

    method Compact()
      requires Valid()
      modifies Repr()
      ensures Valid() && Repr() == old(Repr())
      ensures Abs() == CompactBook(old(Abs()))
    {
      ghost var before := Abs();
      bids.Compact();
      assert asks.Abs() == before.asks;
      asks.Compact();
      SameOrders(Orders(), before.orders);
    }

    method KeepActive()
      requires Valid()
      modifies this`orders
      ensures Valid() && Repr() <= old(Repr())
      ensures Abs() == BookModel.ClearHistory(old(Abs()))
    {
      ghost var before := Abs();
      orders := map id | id in orders && orders[id].status.IsActive() :: orders[id];
      SameOrders(Orders(), BookModel.ClearHistory(before).orders);
    }

    // Keeps the active orders only; returns how many records went.
    method ClearHistory() returns (removed: int)
      requires Valid()
      modifies this`orders
      ensures Valid() && Repr() <= old(Repr())
      ensures Abs() == BookModel.ClearHistory(old(Abs()))
      ensures removed == |old(Abs()).orders| - |Abs().orders|
    {
      hide Valid, BookModel.ClearHistory;
      var had := |orders|;
      SameSize(Orders(), orders);
      KeepActive();
      SameSize(Orders(), orders);
      removed := had - |orders|;
    }
  }

  // Whether the outer loop goes on to the best level.
  predicate Enters(m: MatchState) {
    && !m.stpCancelled && m.incoming.remaining > 0 && Opposing(m).best.Some?
    && Crosses(m.incoming.side, m.incoming.price, Opposing(m).best.value)
  }

  // A turn by which the machine has stopped.
  ghost function EndOf(m: MatchState, policy: StpPolicy): (n: nat)
    requires Terminates(m, policy)
    ensures Iterate(m, policy, n).done
  {
    var n: nat :| Iterate(m, policy, n).done; n
  }

  // A machine still at work has turns left before its end.
  lemma Turn(m: MatchState, cur: MatchState, policy: StpPolicy, n: nat, end: nat)
    requires cur == Iterate(m, policy, n) && Iterate(m, policy, end).done && !cur.done
    ensures n < end && Iterate(m, policy, n + 1) == Step(cur, policy)
  {
    if end <= n {
      IterateAdds(m, policy, end, n - end);
      DoneStays(Iterate(m, policy, end), policy, n - end);
    }
    OneMore(m, policy, n);
  }

  lemma EndsLater(m: MatchState, policy: StpPolicy, n: nat)
    requires Terminates(m, policy)
    ensures Terminates(Iterate(m, policy, n), policy)
  {
    hide Step;
    var end := EndOf(m, policy);
    if n <= end {
      IterateAdds(m, policy, n, end - n);
    } else {
      IterateAdds(m, policy, end, n - end);
      DoneStays(Iterate(m, policy, end), policy, n - end);
      assert Iterate(Iterate(m, policy, n), policy, 0).done;
    }
  }

  lemma Ended(m: MatchState, cur: MatchState, policy: StpPolicy, n: nat)
    requires cur == Iterate(m, policy, n) && cur.at.None? && !cur.done && !Enters(cur)
    ensures Finish(m, policy) == cur.(done := true)
  {
    assert Step(cur, policy) == cur.(done := true);
    OneMore(m, policy, n);
    FinishIs(m, policy, n + 1);
  }

  lemma {:induction false} OneMore(m: MatchState, policy: StpPolicy, n: nat)
    ensures Iterate(m, policy, n + 1) == Step(Iterate(m, policy, n), policy)
  {
    IterateAdds(m, policy, n, 1);
    assert Iterate(Iterate(m, policy, n), policy, 1) == Iterate(Step(Iterate(m, policy, n), policy), policy, 0);
  }

  // Matching changes neither the taker's id nor the id counter.
  lemma {:induction false} IterateKeepsId(m: MatchState, policy: StpPolicy, n: nat)
    ensures Iterate(m, policy, n).incoming.id == m.incoming.id
    ensures Iterate(m, policy, n).book.nextOrderId == m.book.nextOrderId
    decreases n
  {
    hide PopFront, FrontId;
    if n > 0 {
      IterateKeepsId(Step(m, policy), policy, n - 1);
    }
  }

  lemma MatchingKeepsId(m: MatchState, policy: StpPolicy)
    ensures Finish(m, policy).incoming.id == m.incoming.id
    ensures Finish(m, policy).book.nextOrderId == m.book.nextOrderId
  {
    if Terminates(m, policy) {
      FinishIs(m, policy, EndOf(m, policy));
      IterateKeepsId(m, policy, EndOf(m, policy));
    }
  }

  // Purging first and popping then is popping past the tombstones.
  lemma PopOfPurged(b: BookState, s: Side, p: Price)
    requires p in b.SideOf(s).levels
    ensures var l := b.SideOf(s).levels[p];
            var purged := PurgeAt(b, s, p);
            purged.WithSide(s, PutLevel(purged.SideOf(s), p, LevelModel.PopFront(purged.SideOf(s).levels[p], 0))) ==
            b.WithSide(s, PutLevel(b.SideOf(s), p, LevelModel.PopFront(l, 0)))
  {
    var l := b.SideOf(s).levels[p];
    PurgeFacts(l.orders);
    assert PurgeFront(PurgeFront(l)) == PurgeFront(l);
    var once := PutLevel(b.SideOf(s), p, PurgeFront(l));
    SameLevels(PutLevel(once, p, LevelModel.PopFront(l, 0)).levels,
               PutLevel(b.SideOf(s), p, LevelModel.PopFront(l, 0)).levels);
  }

  lemma MeetFrontCases(b: BookState, o: OrderState, p: Price, id: OrderId, policy: StpPolicy)
    requires id in b.orders && p in b.SideOf(o.side.Opposite()).levels
    ensures var after := MatchModel.MeetFront(Start(b, o).(at := Some(p)), p, id, policy);
            if Conflict(policy, o.owner, b.orders[id].owner) then
              if TakerYields(policy, o.remaining, b.orders[id].remaining) then
                after == MatchState(b, o.StpDecrement(o.remaining), [], true, None, false)
              else
                after == MatchState(BookModel.CancelOrder(b, id).0, o, [], false, Some(p), false)
            else
              var traded := MatchModel.TradeFront(Start(b, o), p, id);
              after == MatchState(traded.book, traded.incoming, traded.trades, false, Some(p), false)
  {
  }

  // The machine does not look back at the trades it has made.
  lemma TradesAccumulate(m: MatchState, p: Price, id: OrderId, policy: StpPolicy)
    requires id in m.book.orders && p in m.book.SideOf(m.incoming.side.Opposite()).levels
    requires m.at == Some(p) && !m.stpCancelled && !m.done
    ensures var after := MatchModel.MeetFront(m, p, id, policy);
            var bare := MatchModel.MeetFront(Start(m.book, m.incoming).(at := Some(p)), p, id, policy);
            after == bare.(trades := m.trades + bare.trades)
  {
    assert m.trades + [] == m.trades;
  }
}
