/** How much a submission can trade: the greedy walk against the liquidity query. */
module Liquidity {
  import opened Types
  import opened PriceKeys
  import opened OrderModel
  import opened LevelModel
  import opened SideModel
  import opened BookModel
  import opened PriceTime
  import opened Matching

  // ---- the live list is in price-time order ------------------------------------

  predicate Earlier(s: Side, a: Resting, b: Resting) {
    Better(s, a.price, b.price) || (a.price == b.price && a.id < b.id)
  }

  ghost predicate InPriority(s: Side, live: seq<Resting>) {
    forall i, j | 0 <= i < j < |live| :: Earlier(s, live[i], live[j])
  }

  lemma {:induction false} QueueInPriority(queue: seq<OrderId>, s: Side, p: Price, orders: OrderMap)
    requires GoodQueue(queue, s, p, orders)
    ensures InPriority(s, QueueOf(queue, orders))
  {
    if queue != [] {
      var tail := queue[1..];
      assert GoodQueue(tail, s, p, orders);
      QueueInPriority(tail, s, p, orders);
      QueueMembers(tail, s, p, orders);
      var rest := QueueOf(tail, orders);
      if queue[0] == TOMBSTONE {
        assert QueueOf(queue, orders) == rest;
      } else {
        var r := RestingOf(orders[queue[0]]);
        forall j | 0 <= j < |rest| ensures Earlier(s, r, rest[j]) {
          var k :| 0 <= k < |tail| && tail[k] == rest[j].id;
          assert queue[0] < queue[k + 1];
        }
        assert QueueOf(queue, orders) == [r] + rest;
      }
    }
  }

  lemma InPriorityConcat(s: Side, a: seq<Resting>, b: seq<Resting>)
    requires InPriority(s, a) && InPriority(s, b)
    requires forall x, y | x in a && y in b :: Earlier(s, x, y)
    ensures InPriority(s, a + b)
  {
  }

  lemma {:induction false} FlatInPriority(keys: seq<Price>, sv: SideState, s: Side, orders: OrderMap)
    requires GoodSide(sv, s, orders)
    requires forall i, j | 0 <= i < j < |keys| :: Better(s, keys[i], keys[j])
    ensures InPriority(s, Flat(keys, sv, orders))
  {
    if keys != [] {
      var p, tail := keys[0], keys[1..];
      FlatInPriority(tail, sv, s, orders);
      FlatMembers(tail, sv, s, orders);
      if p in sv.levels {
        assert GoodLevel(sv.levels[p], s, p, orders);
        QueueInPriority(sv.levels[p].orders, s, p, orders);
        QueueMembers(sv.levels[p].orders, s, p, orders);
      }
      forall x, y | x in At(sv, p, orders) && y in Flat(tail, sv, orders)
        ensures Earlier(s, x, y)
      {
        var j :| 0 <= j < |tail| && tail[j] == y.price;
        assert Better(s, keys[0], keys[j + 1]);
      }
      InPriorityConcat(s, At(sv, p, orders), Flat(tail, sv, orders));
    }
  }

  /** The engine's walk order is price-time priority: strictly sorted by better price,
      then by age, and it lists exactly the queued orders. */
  lemma LiveIsPriceTimeOrder(sv: SideState, s: Side, orders: OrderMap)
    requires GoodSide(sv, s, orders)
    ensures InPriority(s, Live(sv, orders))
    ensures forall id | id in orders && id != TOMBSTONE && orders[id].id == id && orders[id].side == s ::
              RestingOf(orders[id]) in Live(sv, orders) <==>
              orders[id].price in sv.levels && id in sv.levels[orders[id].price].orders
  {
    SortedKeysFacts(s, sv.levels.Keys);
    FlatInPriority(SortedKeys(s, sv.levels.Keys), sv, s, orders);
    FlatMembers(SortedKeys(s, sv.levels.Keys), sv, s, orders);
    forall id | id in orders && id != TOMBSTONE && orders[id].id == id && orders[id].side == s &&
                orders[id].price in sv.levels && id in sv.levels[orders[id].price].orders
      ensures RestingOf(orders[id]) in Live(sv, orders)
    {
      var p := orders[id].price;
      assert GoodLevel(sv.levels[p], s, p, orders);
      QueueMembers(sv.levels[p].orders, s, p, orders);
      LiveSplit(sv, p, orders);
    }
  }

  // ---- liquidity within a limit --------------------------------------------------

  function Crossing(live: seq<Resting>, side: Side, limit: Price): nat {
    if live == [] then 0
    else (if Crosses(side, limit, live[0].price) then live[0].quantity else 0) + Crossing(live[1..], side, limit)
  }

  lemma {:induction false} CrossingConcat(a: seq<Resting>, b: seq<Resting>, side: Side, limit: Price)
    ensures Crossing(a + b, side, limit) == Crossing(a, side, limit) + Crossing(b, side, limit)
  {
    if a == [] {
      assert a + b == b;
    } else {
      assert (a + b)[1..] == a[1..] + b;
      CrossingConcat(a[1..], b, side, limit);
    }
  }

  lemma {:induction false} CrossingUniform(live: seq<Resting>, side: Side, limit: Price, all: bool)
    requires forall x | x in live :: Crosses(side, limit, x.price) <==> all
    ensures Crossing(live, side, limit) == if all then SumQuantity(live) else 0
  {
    if live != [] {
      assert live[0] in live;
      CrossingUniform(live[1..], side, limit, all);
    }
  }

  lemma {:induction false} TotalsAreQuantities(keys: seq<Price>, sv: SideState, s: Side, orders: OrderMap)
    requires GoodSide(sv, s, orders)
    ensures SumTotals(keys, sv.levels) == SumQuantity(Flat(keys, sv, orders))
  {
    if keys != [] {
      TotalsAreQuantities(keys[1..], sv, s, orders);
      SumConcat(At(sv, keys[0], orders), Flat(keys[1..], sv, orders));
      if keys[0] in sv.levels {
        assert GoodLevel(sv.levels[keys[0]], s, keys[0], orders);
      }
    }
  }

  /** The cached totals of a side add up to what its live orders have left. */
  lemma TotalIsLive(sv: SideState, s: Side, orders: OrderMap)
    requires GoodSide(sv, s, orders)
    ensures SumTotals(SortedKeys(s, sv.levels.Keys), sv.levels) == SumQuantity(Live(sv, orders))
  {
    TotalsAreQuantities(SortedKeys(s, sv.levels.Keys), sv, s, orders);
  }

  /** The cached level totals answer the feasibility query exactly. */
  lemma AvailableIsCrossing(sv: SideState, s: Side, orders: OrderMap, limit: Price)
    requires GoodSide(sv, s, orders)
    ensures QuantityAtOrBetter(sv, limit) == Crossing(Live(sv, orders), s.Opposite(), limit)
  {
    var near := set k | k in sv.levels.Keys && AtOrBetter(s, k, limit);
    var a, m, b := Above(sv, limit, orders), At(sv, limit, orders), Below(sv, limit, orders);
    SplitKeys(s, near, limit);
    assert KeysAbove(s, near, limit) == KeysAbove(s, sv.levels.Keys, limit);
    assert KeysBelow(s, near, limit) == {};
    var up := SortedKeys(s, KeysAbove(s, near, limit));
    var mid := if limit in near then [limit] else [];
    assert SortedKeys(s, near) == up + mid;
    TotalsAreQuantities(up + mid, sv, s, orders);
    FlatConcat(up, mid, sv, orders);
    assert Flat(mid, sv, orders) == m;
    assert QuantityAtOrBetter(sv, limit) == SumQuantity(a + m);
    LiveSplit(sv, limit, orders);
    PricesAround(sv, s, limit, orders);
    CrossingUniform(a + m, s.Opposite(), limit, true);
    CrossingUniform(b, s.Opposite(), limit, false);
    CrossingConcat(a + m, b, s.Opposite(), limit);
  }

  // ---- what the walk trades ---------------------------------------------------------

  ghost predicate Clashes(policy: StpPolicy, owner: Option<nat>, live: seq<Resting>) {
    exists x | x in live :: Conflict(policy, owner, x.owner)
  }

  /** Without a self-trade the walk trades exactly the smaller of what is asked and
      what crosses, and gives nothing up. */
  lemma {:induction false} GreedyTradesAllItCan(live: seq<Resting>, t: Taker, policy: StpPolicy)
    requires InPriority(t.side.Opposite(), live)
    requires !Clashes(policy, t.owner, live)
    ensures var g := Greedy(live, t, policy);
            && Volume(g.fills) == Min(t.left, Crossing(live, t.side, t.limit))
            && g.left == t.left - Volume(g.fills)
            && !g.stopped
            && SumQuantity(live) == SumQuantity(g.book) + Volume(g.fills)
  {
    if live == [] || t.left == 0 {
    } else if !Crosses(t.side, t.limit, live[0].price) {
      forall x | x in live ensures !Crosses(t.side, t.limit, x.price) {
        var j :| 0 <= j < |live| && live[j] == x;
        if j > 0 { assert Earlier(t.side.Opposite(), live[0], live[j]); }
      }
      CrossingUniform(live, t.side, t.limit, false);
    } else {
      var h, rest := live[0], live[1..];
      assert h in live && !Conflict(policy, t.owner, h.owner);
      if t.left >= h.quantity {
        var t2 := t.(left := t.left - h.quantity);
        assert forall x | x in rest :: x in live;
        GreedyTradesAllItCan(rest, t2, policy);
        var g := Greedy(rest, t2, policy);
        assert ([Fill(h.id, h.price, h.quantity)] + g.fills)[1..] == g.fills;
      } else {
        var after := [h.(quantity := h.quantity - t.left)] + rest;
        assert after[1..] == rest;
        assert Volume([Fill(h.id, h.price, t.left)]) == t.left;
      }
    }
  }

  predicate NoStp(policy: StpPolicy, owner: Option<nat>) {
    policy.Off? || owner.None?
  }

  lemma {:induction false} NoStpIsSafe(live: seq<Resting>, t: Taker, policy: StpPolicy, orders: OrderMap)
    requires NoStp(policy, t.owner) || policy.CancelNewest?
    ensures StpSafe(live, t, policy, orders)
  {
    if Reaches(live, t) && !Conflict(policy, t.owner, live[0].owner) && t.left >= live[0].quantity {
      NoStpIsSafe(live[1..], t.(left := t.left - live[0].quantity), policy, orders);
    }
  }

  /** Whatever the policy, quantity is accounted for: traded, still open, or given up
      when self-trade prevention stopped the walk. */
  lemma {:induction false} GreedyConserves(live: seq<Resting>, t: Taker, policy: StpPolicy)
    ensures var g := Greedy(live, t, policy);
            && Volume(g.fills) + g.left <= t.left
            && (!g.stopped ==> Volume(g.fills) + g.left == t.left)
            && (g.stopped ==> g.left == 0 && Volume(g.fills) < t.left)
  {
    if Reaches(live, t) {
      var h := live[0];
      if Conflict(policy, t.owner, h.owner) {
        if !TakerYields(policy, t.left, h.quantity) {
          GreedyConserves(live[1..], t, policy);
        }
      } else if t.left >= h.quantity {
        var t2 := t.(left := t.left - h.quantity);
        GreedyConserves(live[1..], t2, policy);
        var g := Greedy(live[1..], t2, policy);
        assert ([Fill(h.id, h.price, h.quantity)] + g.fills)[1..] == g.fills;
      } else {
        assert Volume([Fill(h.id, h.price, t.left)]) == t.left;
      }
    }
  }

  // `r` is the resting order a fill took from: same id, its own price, within the
  // limit, no more than it showed, and not the taker's own under the policy.
  predicate FairFill(f: Fill, r: Resting, t: Taker, policy: StpPolicy) {
    && f.maker == r.id && f.price == r.price
    && Crosses(t.side, t.limit, f.price)
    && 0 < f.quantity <= r.quantity
    && !Conflict(policy, t.owner, r.owner)
  }

  /** Every trade is at the resting price, inside the taker's limit, and never with
      the taker's own resting order. */
  lemma {:induction false} FillsAreFair(live: seq<Resting>, t: Taker, policy: StpPolicy)
    requires forall x | x in live :: x.quantity > 0
    ensures forall f | f in Greedy(live, t, policy).fills :: exists r | r in live :: FairFill(f, r, t, policy)
  {
    if Reaches(live, t) {
      var h, rest := live[0], live[1..];
      assert h in live;
      if Conflict(policy, t.owner, h.owner) {
        FillsAreFair(rest, t, policy);
      } else if t.left >= h.quantity {
        var t2 := t.(left := t.left - h.quantity);
        FillsAreFair(rest, t2, policy);
        assert FairFill(Fill(h.id, h.price, h.quantity), h, t, policy);
        forall f | f in Greedy(rest, t2, policy).fills
          ensures exists r | r in live :: FairFill(f, r, t, policy)
        {
          var r :| r in rest && FairFill(f, r, t2, policy);
          assert r in live && FairFill(f, r, t, policy);
        }
      } else {
        assert FairFill(Fill(h.id, h.price, t.left), h, t, policy);
      }
    }
  }
}
