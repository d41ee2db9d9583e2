/** Matching on a well-formed book is the greedy price-time walk, and it ends exactly
    when self-trade prevention never cancels through a stale slot. */
module Matching {
  import opened Types
  import opened PriceKeys
  import opened OrderModel
  import opened LevelModel
  import opened SideModel
  import opened BookModel
  import opened PriceTime
  import opened MatchModel

  function TakerOf(o: OrderState): Taker {
    Taker(o.side, o.price, o.remaining, o.owner)
  }

  function TradesOf(fills: seq<Fill>, tradeId: nat, timestamp: nat, id: OrderId, side: Side): seq<Trade> {
    if fills == [] then []
    else
      [Trade(tradeId, fills[0].price, fills[0].quantity, id, fills[0].maker, side, timestamp)] +
      TradesOf(fills[1..], tradeId + 1, timestamp + 1, id, side)
  }

  function Volume(fills: seq<Fill>): nat {
    if fills == [] then 0 else fills[0].quantity + Volume(fills[1..])
  }

  function Opposing(m: MatchState): SideState {
    m.book.SideOf(m.incoming.side.Opposite())
  }

  ghost predicate MatchInv(m: MatchState) {
    && GoodBook(m.book)
    && m.incoming.id !in m.book.orders
    && (m.at.Some? ==>
          && Crosses(m.incoming.side, m.incoming.price, m.at.value)
          && (m.at.value in Opposing(m).levels ==> Opposing(m).best == m.at)
          && !m.stpCancelled && !m.done)
    && (m.stpCancelled ==> m.incoming.remaining == 0)
    && (m.done ==>
          m.incoming.remaining == 0 || Opposing(m).best.None? ||
          !Crosses(m.incoming.side, m.incoming.price, Opposing(m).best.value))
  }

  ghost predicate Safe(m: MatchState, policy: StpPolicy) {
    StpSafe(m.book.LiveOn(m.incoming.side.Opposite()), TakerOf(m.incoming), policy, m.book.orders)
  }

  // Where the greedy walk says the machine will end up.
  datatype Forecast = Forecast(
    trades: seq<Trade>,
    left: nat,
    filled: nat,
    opposing: seq<Resting>,
    own: seq<Resting>,
    stopped: bool,
    nextTradeId: nat,
    nextTimestamp: nat)

  ghost function Foresee(m: MatchState, policy: StpPolicy): Forecast {
    var b, o := m.book, m.incoming;
    var g := Greedy(b.LiveOn(o.side.Opposite()), TakerOf(o), policy);
    Forecast(m.trades + TradesOf(g.fills, b.nextTradeId, b.nextTimestamp, o.id, o.side),
             g.left, o.filled + Volume(g.fills), g.book, b.LiveOn(o.side), m.stpCancelled || g.stopped,
             b.nextTradeId + |g.fills|, b.nextTimestamp + |g.fills|)
  }

  // ---- one turn at the front of a level ------------------------------------

  lemma PurgedSide(sv: SideState, s: Side, p: Price, orders: OrderMap)
    requires GoodSide(sv, s, orders) && p in sv.levels
    ensures var after := PutLevel(sv, p, PurgeFront(sv.levels[p]));
            && GoodSide(after, s, orders)
            && after.levels.Keys == sv.levels.Keys
            && Live(after, orders) == Live(sv, orders)
    ensures FrontId(sv.levels[p]).Some?
  {
    var l := sv.levels[p];
    var l2 := PurgeFront(l);
    assert GoodLevel(l, s, p, orders);
    PurgeFacts(l.orders);
    QueueOfPurged(l.orders, orders);
    FrontIsFirstLive(l);
    assert GoodLevel(l2, s, p, orders);
    var after := PutLevel(sv, p, l2);
    assert after.levels.Keys == sv.levels.Keys;
    SortedKeysFacts(s, sv.levels.Keys);
    FlatFrame(SortedKeys(s, sv.levels.Keys), sv, orders, after, orders);
    assert l2.orders == [] ==> SumQuantity(QueueOf(l2.orders, orders)) == 0;
  }

  lemma PurgedBook(b: BookState, s: Side, p: Price)
    requires GoodBook(b) && p in b.SideOf(s).levels
    ensures var after := PurgeAt(b, s, p);
            && GoodBook(after)
            && after.LiveOn(Buy) == b.LiveOn(Buy) && after.LiveOn(Sell) == b.LiveOn(Sell)
            && after.SideOf(s).levels.Keys == b.SideOf(s).levels.Keys
    ensures FrontId(b.SideOf(s).levels[p]).Some?
  {
    PurgedSide(b.SideOf(s), s, p, b.orders);
  }

  // The order at slot 0 of the best level heads the live list.
  lemma FrontHeadsSide(sv: SideState, s: Side, p: Price, orders: OrderMap)
    requires GoodSide(sv, s, orders) && sv.best == Some(p)
    ensures p in sv.levels
    ensures var queue := sv.levels[p].orders;
            queue != [] && queue[0] != TOMBSTONE ==>
              && queue[0] in orders && Rests(orders[queue[0]], queue[0], s, p)
              && At(sv, p, orders) == [RestingOf(orders[queue[0]])] + QueueOf(queue[1..], orders)
              && Live(sv, orders) ==
                 [RestingOf(orders[queue[0]])] + QueueOf(queue[1..], orders) + Below(sv, p, orders)
  {
    NothingAboveBest(sv, s, p, orders);
    assert GoodLevel(sv.levels[p], s, p, orders);
  }

  lemma TradedLevel(l: LevelState, s: Side, p: Price, orders: OrderMap, quantity: nat)
    requires GoodLevel(l, s, p, orders)
    requires l.orders != [] && l.orders[0] != TOMBSTONE
    requires quantity <= orders[l.orders[0]].remaining
    ensures var id := l.orders[0];
            var r := orders[id];
            var o2 := orders[id := r.Fill(quantity)];
            var rest := QueueOf(l.orders[1..], orders);
            if quantity == r.remaining then
              GoodOrEmpty(PopFront(l, quantity), s, p, o2) &&
              QueueOf(PopFront(l, quantity).orders, o2) == rest
            else
              GoodOrEmpty(DecreaseQuantity(l, quantity), s, p, o2) &&
              QueueOf(l.orders, o2) == [RestingOf(r.Fill(quantity))] + rest
  {
    var id, tail := l.orders[0], l.orders[1..];
    var r := orders[id];
    var o2 := orders[id := r.Fill(quantity)];
    assert Rests(r, id, s, p);
    assert id !in tail;
    QueueFrame(tail, orders, o2);
    assert GoodQueue(tail, s, p, orders);
    assert GoodQueue(tail, s, p, o2);
    assert QueueOf(l.orders, orders) == [RestingOf(r)] + QueueOf(tail, orders);
    if quantity == r.remaining {
      assert Purge(l.orders) == l.orders;
    } else {
      assert QueueOf(l.orders, o2) == [RestingOf(o2[id])] + QueueOf(tail, o2);
      assert GoodQueue(l.orders, s, p, o2);
    }
  }

  ghost predicate FrontReady(sv: SideState, s: Side, p: Price, orders: OrderMap, id: OrderId) {
    && GoodSide(sv, s, orders) && sv.best == Some(p) && p in sv.levels
    && sv.levels[p].orders != [] && sv.levels[p].orders[0] == id != TOMBSTONE
    && id in orders
  }

  // Replacing the best level replaces what it contributes to the head of the live list.
  lemma HeadReplaced(sv: SideState, s: Side, p: Price, orders: OrderMap, id: OrderId,
                     l: LevelState, o: OrderState, front: seq<Resting>)
    requires FrontReady(sv, s, p, orders, id)
    requires GoodOrEmpty(l, s, p, orders[id := o])
    requires QueueOf(l.orders, orders[id := o]) == front + QueueOf(sv.levels[p].orders[1..], orders)
    ensures var after := PutOrDrop(sv, p, l);
            && GoodSide(after, s, orders[id := o])
            && after.levels.Keys <= sv.levels.Keys
            && (p in after.levels ==> after.best == Some(p))
            && Live(after, orders[id := o]) == front + Live(sv, orders)[1..]
  {
    var rest, below := QueueOf(sv.levels[p].orders[1..], orders), Below(sv, p, orders);
    FrontHeadsSide(sv, s, p, orders);
    NothingAboveBest(sv, s, p, orders);
    assert OthersKept(sv, p, orders, orders[id := o]) by {
      OneOrderKeepsOthers(sv, s, p, orders, id, o);
    }
    PutOrDropLive(sv, s, p, orders, l, orders[id := o]);
    Regroup(RestingOf(orders[id]), front, rest, below);
  }

  lemma Regroup(r: Resting, front: seq<Resting>, rest: seq<Resting>, below: seq<Resting>)
    ensures [] + (front + rest) + below == front + ([r] + rest + below)[1..]
  {
  }

  lemma FilledSide(sv: SideState, s: Side, p: Price, orders: OrderMap, id: OrderId)
    requires FrontReady(sv, s, p, orders, id)
    ensures var r := orders[id];
            var after := LevelTraded(sv, p, r.remaining, true);
            && GoodSide(after, s, orders[id := r.Fill(r.remaining)])
            && after.levels.Keys <= sv.levels.Keys
            && (p in after.levels ==> after.best == Some(p))
            && Live(after, orders[id := r.Fill(r.remaining)]) == Live(sv, orders)[1..]
  {
    var l, r := sv.levels[p], orders[id];
    assert GoodLevel(l, s, p, orders);
    TradedLevel(l, s, p, orders, r.remaining);
    HeadReplaced(sv, s, p, orders, id, PopFront(l, r.remaining), r.Fill(r.remaining), []);
  }

  lemma PartFilledSide(sv: SideState, s: Side, p: Price, orders: OrderMap, id: OrderId, quantity: nat)
    requires FrontReady(sv, s, p, orders, id)
    requires quantity < orders[id].remaining
    ensures var r := orders[id];
            var after := LevelTraded(sv, p, quantity, false);
            && GoodSide(after, s, orders[id := r.Fill(quantity)])
            && after.levels.Keys <= sv.levels.Keys
            && (p in after.levels ==> after.best == Some(p))
            && Live(after, orders[id := r.Fill(quantity)]) ==
               [RestingOf(r.Fill(quantity))] + Live(sv, orders)[1..]
  {
    var l, r := sv.levels[p], orders[id];
    var l2 := DecreaseQuantity(l, quantity);
    assert GoodLevel(l, s, p, orders);
    TradedLevel(l, s, p, orders, quantity);
    EmptyTotalMeansEmptyQueue(l2, s, p, orders[id := r.Fill(quantity)]);
    HeadReplaced(sv, s, p, orders, id, l2, r.Fill(quantity), [RestingOf(r.Fill(quantity))]);
  }

  // ---- one step keeps the invariant and the forecast -------------------------

  // Inside a level, tombstones purged, an open taker facing the live front `id`.
  ghost predicate Facing(m: MatchState, p: Price, id: OrderId) {
    && MatchInv(m) && m.at == Some(p) && m.incoming.remaining > 0
    && FrontReady(Opposing(m), m.incoming.side.Opposite(), p, m.book.orders, id)
  }

  lemma FacingHead(m: MatchState, p: Price, id: OrderId)
    requires Facing(m, p, id)
    ensures Rests(m.book.orders[id], id, m.incoming.side.Opposite(), p)
    ensures var live := m.book.LiveOn(m.incoming.side.Opposite());
            live != [] && live[0] == RestingOf(m.book.orders[id]) && Reaches(live, TakerOf(m.incoming))
  {
    FrontHeadsSide(Opposing(m), m.incoming.side.Opposite(), p, m.book.orders);
  }

  // Positions never change while matching, so neither does safety.
  lemma {:induction false} SafeFrame(live: seq<Resting>, t: Taker, policy: StpPolicy, o1: OrderMap, o2: OrderMap)
    requires o1.Keys == o2.Keys
    requires forall x | x in o1 :: o1[x].position == o2[x].position
    ensures StpSafe(live, t, policy, o1) <==> StpSafe(live, t, policy, o2)
  {
    if Reaches(live, t) {
      var h := live[0];
      if Conflict(policy, t.owner, h.owner) {
        SafeFrame(live[1..], t, policy, o1, o2);
      } else if t.left >= h.quantity {
        SafeFrame(live[1..], t.(left := t.left - h.quantity), policy, o1, o2);
      }
    }
  }

  ghost predicate SameIdentity(o1: OrderState, o2: OrderState) {
    o2 == o1.(remaining := o2.remaining, filled := o2.filled, status := o2.status)
  }

  // What matching never touches: identities, the taker's own side, and the set of
  // orders; opposing levels only disappear.
  ghost predicate OnlyConsumes(m: MatchState, after: MatchState) {
    && SameIdentity(m.incoming, after.incoming)
    && after.book.orders.Keys == m.book.orders.Keys
    && (forall x | x in m.book.orders :: SameIdentity(m.book.orders[x], after.book.orders[x]))
    && after.book.nextOrderId == m.book.nextOrderId
    && after.book.SideOf(m.incoming.side) == m.book.SideOf(m.incoming.side)
    && Opposing(after).levels.Keys <= Opposing(m).levels.Keys
  }

  // The book part of a trade against the front of the best level.
  lemma TradedBook(b: BookState, s: Side, p: Price, id: OrderId, quantity: nat)
    requires GoodBook(b)
    requires FrontReady(b.SideOf(s), s, p, b.orders, id) && quantity <= b.orders[id].remaining
    ensures var r := b.orders[id];
            var side := LevelTraded(b.SideOf(s), p, quantity, quantity == r.remaining);
            var after := b.(orders := b.orders[id := r.Fill(quantity)]).WithSide(s, side);
            && GoodBook(after)
            && side.levels.Keys <= b.SideOf(s).levels.Keys
            && (p in side.levels ==> side.best == Some(p))
            && after.LiveOn(s) ==
               (if quantity == r.remaining then [] else [RestingOf(r.Fill(quantity))]) + b.LiveOn(s)[1..]
            && after.LiveOn(s.Opposite()) == b.LiveOn(s.Opposite())
  {
    var r := b.orders[id];
    FrontHeadsSide(b.SideOf(s), s, p, b.orders);
    if quantity == r.remaining {
      FilledSide(b.SideOf(s), s, p, b.orders, id);
    } else {
      PartFilledSide(b.SideOf(s), s, p, b.orders, id, quantity);
    }
    OtherSideFrame(b.SideOf(s.Opposite()), s.Opposite(), b.orders, id, r.Fill(quantity));
  }

  lemma TradeFrontKeeps(m: MatchState, p: Price, id: OrderId)
    requires Facing(m, p, id)
    ensures var after := TradeFront(m, p, id);
            var live := m.book.LiveOn(m.incoming.side.Opposite());
            var r := m.book.orders[id];
            && MatchInv(after) && OnlyConsumes(m, after)
            && after.book.LiveOn(m.incoming.side) == m.book.LiveOn(m.incoming.side)
            && after.book.LiveOn(m.incoming.side.Opposite()) ==
               (if r.remaining <= m.incoming.remaining then []
                else [RestingOf(r.Fill(m.incoming.remaining))]) + live[1..]
  {
    hide Live, PurgeFront, RemoveLevel, Crosses, SatSub, PutLevel, DecreaseQuantity, RestingOf, LevelTraded,
         PopFront, PutOrDrop, GoodSide;
    var s, b := m.incoming.side.Opposite(), m.book;
    var quantity := Min(m.incoming.remaining, b.orders[id].remaining);
    FacingHead(m, p, id);
    TradedBook(b, s, p, id, quantity);
    var after := TradeFront(m, p, id);
    var plain := b.(orders := b.orders[id := b.orders[id].Fill(quantity)])
                  .WithSide(s, LevelTraded(b.SideOf(s), p, quantity, quantity == b.orders[id].remaining));
    assert after.book == plain.(nextTradeId := b.nextTradeId + 1, nextTimestamp := b.nextTimestamp + 1);
  }

  lemma Shift(trades: seq<Trade>, f: Fill, fills: seq<Fill>, tradeId: nat, timestamp: nat, id: OrderId, side: Side)
    ensures trades + [Trade(tradeId, f.price, f.quantity, id, f.maker, side, timestamp)] +
            TradesOf(fills, tradeId + 1, timestamp + 1, id, side) ==
            trades + TradesOf([f] + fills, tradeId, timestamp, id, side)
    ensures Volume([f] + fills) == f.quantity + Volume(fills)
  {
    assert ([f] + fills)[1..] == fills;
  }

  lemma TradeFrontSafety(m: MatchState, p: Price, id: OrderId, policy: StpPolicy)
    requires Facing(m, p, id)
    requires !Conflict(policy, m.incoming.owner, m.book.orders[id].owner)
    ensures Safe(m, policy) <==> Safe(TradeFront(m, p, id), policy)
  {
    var s := m.incoming.side.Opposite();
    var after := TradeFront(m, p, id);
    FacingHead(m, p, id);
    TradeFrontKeeps(m, p, id);
    GreedyTrade(m.book.LiveOn(s), TakerOf(m.incoming), policy, after.book.LiveOn(s), m.book.orders);
    SafeFrame(after.book.LiveOn(s), TakerOf(after.incoming), policy, m.book.orders, after.book.orders);
  }

  lemma TradeFrontForecast(m: MatchState, p: Price, id: OrderId, policy: StpPolicy)
    requires Facing(m, p, id)
    requires !Conflict(policy, m.incoming.owner, m.book.orders[id].owner)
    ensures Foresee(TradeFront(m, p, id), policy) == Foresee(m, policy)
  {
    var s, r, b := m.incoming.side.Opposite(), m.book.orders[id], m.book;
    var after := TradeFront(m, p, id);
    var quantity := Min(m.incoming.remaining, r.remaining);
    assert b.LiveOn(s) != [] && b.LiveOn(s)[0] == RestingOf(r) && r.id == id && r.price == p &&
           Reaches(b.LiveOn(s), TakerOf(m.incoming)) by {
      FacingHead(m, p, id);
    }
    var live, next := b.LiveOn(s), after.book.LiveOn(s);
    assert after.book.LiveOn(m.incoming.side) == b.LiveOn(m.incoming.side) &&
           next == (if r.remaining <= m.incoming.remaining then []
                    else [RestingOf(r.Fill(m.incoming.remaining))]) + live[1..] by {
      TradeFrontKeeps(m, p, id);
    }
    ForecastOneTrade(m, after, policy, Fill(id, p, quantity), live, next);
  }

  lemma ForecastOneTrade(m: MatchState, after: MatchState, policy: StpPolicy, f: Fill,
                         live: seq<Resting>, next: seq<Resting>)
    requires live == m.book.LiveOn(m.incoming.side.Opposite())
    requires after.incoming.side == m.incoming.side
    requires next == after.book.LiveOn(m.incoming.side.Opposite())
    requires after.book.LiveOn(m.incoming.side) == m.book.LiveOn(m.incoming.side)
    requires Reaches(live, TakerOf(m.incoming)) && !Conflict(policy, m.incoming.owner, live[0].owner)
    requires f == Fill(live[0].id, live[0].price, Min(m.incoming.remaining, live[0].quantity))
    requires next == (if live[0].quantity <= m.incoming.remaining then []
                      else [live[0].(quantity := live[0].quantity - m.incoming.remaining)]) + live[1..]
    requires after.incoming == m.incoming.Fill(f.quantity)
    requires after.stpCancelled == m.stpCancelled
    requires after.book.nextTradeId == m.book.nextTradeId + 1
    requires after.book.nextTimestamp == m.book.nextTimestamp + 1
    requires after.trades == m.trades + [Trade(m.book.nextTradeId, f.price, f.quantity, m.incoming.id, f.maker,
                                               m.incoming.side, m.book.nextTimestamp)]
    ensures Foresee(after, policy) == Foresee(m, policy)
  {
    hide Live, Flat, TakerYields, Min, Crosses, SortedKeys, TradesOf, Conflict;
    GreedyTrade(live, TakerOf(m.incoming), policy, next, map[]);
    var g := Greedy(next, TakerOf(after.incoming), policy);
    Shift(m.trades, f, g.fills, m.book.nextTradeId, m.book.nextTimestamp, m.incoming.id, m.incoming.side);
  }

  // One trade of the walk, as a relation between the lists before and after it.
  lemma GreedyTrade(live: seq<Resting>, t: Taker, policy: StpPolicy, next: seq<Resting>, orders: OrderMap)
    requires Reaches(live, t) && !Conflict(policy, t.owner, live[0].owner)
    requires next == (if live[0].quantity <= t.left then []
                      else [live[0].(quantity := live[0].quantity - t.left)]) + live[1..]
    ensures var quantity := Min(t.left, live[0].quantity);
            var t2 := t.(left := t.left - quantity);
            var g := Greedy(next, t2, policy);
            && Greedy(live, t, policy) == g.(fills := [Fill(live[0].id, live[0].price, quantity)] + g.fills)
            && (StpSafe(live, t, policy, orders) <==> StpSafe(next, t2, policy, orders))
  {
    if live[0].quantity <= t.left {
      assert next == live[1..];
    }
  }

  // ---- cancelling the front order -------------------------------------------

  lemma {:induction false} WithoutHead(r: Resting, tail: seq<Resting>)
    requires forall x | x in tail :: x.id != r.id
    ensures Without([r] + tail, r.id) == tail
  {
    WithoutAbsent(tail, r.id);
    assert ([r] + tail)[1..] == tail;
  }

  lemma IdsBehindFront(sv: SideState, s: Side, p: Price, orders: OrderMap, id: OrderId)
    requires FrontReady(sv, s, p, orders, id)
    ensures forall x | x in QueueOf(sv.levels[p].orders[1..], orders) + Below(sv, p, orders) :: x.id != id
  {
    var queue := sv.levels[p].orders;
    assert GoodLevel(sv.levels[p], s, p, orders);
    assert GoodQueue(queue[1..], s, p, orders);
    QueueMembers(queue[1..], s, p, orders);
    OffPriceIdsDiffer(sv, s, p, orders, id);
    assert id !in queue[1..];
  }

  lemma HeadIsUnique(sv: SideState, s: Side, p: Price, orders: OrderMap, id: OrderId)
    requires FrontReady(sv, s, p, orders, id)
    ensures Live(sv, orders) != [] && Without(Live(sv, orders), id) == Live(sv, orders)[1..]
  {
    var r, rest, below := RestingOf(orders[id]), QueueOf(sv.levels[p].orders[1..], orders), Below(sv, p, orders);
    FrontHeadsSide(sv, s, p, orders);
    IdsBehindFront(sv, s, p, orders, id);
    WithoutHead(r, rest + below);
    assert [r] + rest + below == [r] + (rest + below);
  }

  lemma CancelFrontKeeps(m: MatchState, p: Price, id: OrderId)
    requires Facing(m, p, id) && m.book.orders[id].position == 0
    ensures var after := m.(book := CancelOrder(m.book, id).0);
            var live := m.book.LiveOn(m.incoming.side.Opposite());
            && MatchInv(after) && OnlyConsumes(m, after)
            && after.book.LiveOn(m.incoming.side) == m.book.LiveOn(m.incoming.side)
            && after.book.LiveOn(m.incoming.side.Opposite()) == live[1..]
  {
    FacingHead(m, p, id);
    SafeCancelWorks(m.book, id);
    HeadIsUnique(Opposing(m), m.incoming.side.Opposite(), p, m.book.orders, id);
  }

  lemma CancelFrontForecast(m: MatchState, p: Price, id: OrderId, policy: StpPolicy)
    requires Facing(m, p, id) && m.book.orders[id].position == 0
    requires Conflict(policy, m.incoming.owner, m.book.orders[id].owner)
    requires !TakerYields(policy, m.incoming.remaining, m.book.orders[id].remaining)
    ensures var after := m.(book := CancelOrder(m.book, id).0);
            && Foresee(after, policy) == Foresee(m, policy)
            && (Safe(m, policy) <==> Safe(after, policy))
  {
    hide Facing;
    var s := m.incoming.side.Opposite();
    var after := m.(book := CancelOrder(m.book, id).0);
    FacingHead(m, p, id);
    CancelFrontKeeps(m, p, id);
    SafeFrame(after.book.LiveOn(s), TakerOf(m.incoming), policy, m.book.orders, after.book.orders);
  }

  // The loops spin here for ever: the front order was cancelled through a slot that
  // is not its own, so it stays at the front and conflicts again.
  ghost predicate Spinning(m: MatchState, policy: StpPolicy, p: Price, id: OrderId) {
    && !m.done && m.at == Some(p) && m.incoming.remaining > 0
    && p in Opposing(m).levels
    && Opposing(m).levels[p].orders != [] && Opposing(m).levels[p].orders[0] == id != TOMBSTONE
    && id in m.book.orders && m.book.orders[id].remaining == 0 && !m.book.orders[id].IsActive()
    && Conflict(policy, m.incoming.owner, m.book.orders[id].owner) && !policy.CancelNewest?
  }

  lemma SpinningSpins(m: MatchState, policy: StpPolicy, p: Price, id: OrderId)
    requires Spinning(m, policy, p, id)
    ensures Step(m, policy) == m
  {
    var sv := Opposing(m);
    var l := sv.levels[p];
    assert PurgeFront(l) == l;
    assert sv.levels[p := l] == sv.levels;
    assert PurgeAt(m.book, m.incoming.side.Opposite(), p) == m.book;
  }

  lemma {:induction false} SpinningNeverEnds(m: MatchState, policy: StpPolicy, p: Price, id: OrderId, n: nat)
    requires Spinning(m, policy, p, id)
    ensures !Iterate(m, policy, n).done
  {
    if n > 0 {
      SpinningSpins(m, policy, p, id);
      SpinningNeverEnds(m, policy, p, id, n - 1);
    }
  }

  lemma StaleCancelSpins(m: MatchState, p: Price, id: OrderId, policy: StpPolicy)
    requires Facing(m, p, id) && m.book.orders[id].position != 0
    requires Conflict(policy, m.incoming.owner, m.book.orders[id].owner)
    requires !TakerYields(policy, m.incoming.remaining, m.book.orders[id].remaining)
    ensures Spinning(m.(book := CancelOrder(m.book, id).0), policy, p, id)
  {
    var b, s := m.book, m.incoming.side.Opposite();
    var o, l := b.orders[id], Opposing(m).levels[p];
    FacingHead(m, p, id);
    assert GoodLevel(l, s, p, b.orders);
    var l2 := MarkTombstone(l, o.position, o.remaining);
    if SlotOf(b, o) != TOMBSTONE {
      TwoLiveOrdersOutweighOne(l, s, p, b.orders, o.position, id);
    }
    assert !l2.IsEmpty() && l2.orders[0] == id;
  }

  // ---- one step ---------------------------------------------------------------

  // Ranks a state among those with the same live opposing orders.
  ghost function Rank(m: MatchState): nat {
    if m.done then 0
    else if m.incoming.remaining == 0 then (if m.at.None? then 1 else 2)
    else if m.at.None? then 4
    else if m.at.value in Opposing(m).levels then 3 else 5
  }

  ghost predicate Progress(m: MatchState, after: MatchState) {
    var s := m.incoming.side.Opposite();
    var before, now := |m.book.LiveOn(s)|, |after.book.LiveOn(s)|;
    now < before || (now == before && Rank(after) < Rank(m))
  }

  // The state in front of the live order at price `p`, once tombstones are popped.
  ghost function Purged(m: MatchState, p: Price): MatchState
    requires p in Opposing(m).levels
  {
    m.(book := PurgeAt(m.book, m.incoming.side.Opposite(), p))
  }

  lemma PurgingFaces(m: MatchState, p: Price)
    requires MatchInv(m) && m.at == Some(p) && m.incoming.remaining > 0 && p in Opposing(m).levels
    ensures FrontId(Opposing(m).levels[p]).Some?
    ensures Facing(Purged(m, p), p, FrontId(Opposing(m).levels[p]).value)
    ensures OnlyConsumes(m, Purged(m, p))
  {
    var s := m.incoming.side.Opposite();
    PurgedBook(m.book, s, p);
    FrontIsFirstLive(Opposing(m).levels[p]);
    FrontHeadsSide(Opposing(Purged(m, p)), s, p, m.book.orders);
  }

  lemma PurgingForesees(m: MatchState, p: Price, policy: StpPolicy)
    requires MatchInv(m) && m.at == Some(p) && p in Opposing(m).levels
    ensures Foresee(Purged(m, p), policy) == Foresee(m, policy)
    ensures Safe(Purged(m, p), policy) <==> Safe(m, policy)
    ensures Purged(m, p).book.LiveOn(m.incoming.side.Opposite()) == m.book.LiveOn(m.incoming.side.Opposite())
  {
    PurgedBook(m.book, m.incoming.side.Opposite(), p);
    assert Purged(m, p).book.orders == m.book.orders;
  }

  lemma MeetFrontSafe(m: MatchState, p: Price, id: OrderId, policy: StpPolicy)
    requires Facing(m, p, id) && Safe(m, policy)
    ensures var after := MeetFront(m, p, id, policy);
            MatchInv(after) && OnlyConsumes(m, after) && Safe(after, policy)
    ensures Foresee(MeetFront(m, p, id, policy), policy) == Foresee(m, policy)
  {
    FacingHead(m, p, id);
    var r := m.book.orders[id];
    if Conflict(policy, m.incoming.owner, r.owner) {
      if TakerYields(policy, m.incoming.remaining, r.remaining) {
      } else {
        CancelFrontKeeps(m, p, id);
        CancelFrontForecast(m, p, id, policy);
      }
    } else {
      TradeFrontKeeps(m, p, id);
      TradeFrontForecast(m, p, id, policy);
      TradeFrontSafety(m, p, id, policy);
    }
  }

  lemma MeetFrontProgress(m: MatchState, p: Price, id: OrderId, policy: StpPolicy)
    requires Facing(m, p, id)
    requires m.book.orders[id].position == 0 || !Conflict(policy, m.incoming.owner, m.book.orders[id].owner) ||
             TakerYields(policy, m.incoming.remaining, m.book.orders[id].remaining)
    ensures Progress(m, MeetFront(m, p, id, policy))
  {
    FacingHead(m, p, id);
    var r := m.book.orders[id];
    if Conflict(policy, m.incoming.owner, r.owner) {
      if !TakerYields(policy, m.incoming.remaining, r.remaining) {
        CancelFrontKeeps(m, p, id);
      }
    } else {
      TradeFrontKeeps(m, p, id);
    }
  }

  // The turns that move between the loops without touching the book.
  lemma LoopTurnKeeps(m: MatchState, policy: StpPolicy)
    requires MatchInv(m) && !m.done
    requires m.at.None? || m.incoming.remaining == 0 || m.at.value !in Opposing(m).levels
    ensures var after := Step(m, policy);
            && after == m.(at := after.at, done := after.done)
            && MatchInv(after) && Rank(after) < Rank(m)
  {
  }

  lemma LoopTurn(m: MatchState, policy: StpPolicy)
    requires MatchInv(m) && !m.done
    requires m.at.None? || m.incoming.remaining == 0 || m.at.value !in Opposing(m).levels
    ensures var after := Step(m, policy);
            && MatchInv(after) && OnlyConsumes(m, after) && Progress(m, after)
            && (Safe(after, policy) <==> Safe(m, policy))
            && Foresee(after, policy) == Foresee(m, policy)
  {
    LoopTurnKeeps(m, policy);
    var after := Step(m, policy);
    assert after.book == m.book && after.incoming == m.incoming;
  }

  lemma SafeStep(m: MatchState, policy: StpPolicy)
    requires MatchInv(m) && Safe(m, policy) && !m.done
    ensures var after := Step(m, policy);
            && MatchInv(after) && OnlyConsumes(m, after) && Progress(m, after)
            && Safe(after, policy) && Foresee(after, policy) == Foresee(m, policy)
  {
    if m.at.None? || m.incoming.remaining == 0 || m.at.value !in Opposing(m).levels {
      LoopTurn(m, policy);
    } else {
      var p := m.at.value;
      PurgingFaces(m, p);
      var id := FrontId(Opposing(m).levels[p]).value;
      PurgingForesees(m, p, policy);
      FacingHead(Purged(m, p), p, id);
      MeetFrontSafe(Purged(m, p), p, id, policy);
      MeetFrontProgress(Purged(m, p), p, id, policy);
    }
  }

  ghost predicate Spins(m: MatchState, policy: StpPolicy) {
    exists p, id :: Spinning(m, policy, p, id)
  }

  lemma UnsafeStep(m: MatchState, policy: StpPolicy)
    requires MatchInv(m) && !Safe(m, policy) && !m.done
    ensures var after := Step(m, policy);
            Spins(after, policy) || (MatchInv(after) && !Safe(after, policy) && Progress(m, after))
  {
    if m.at.None? || m.incoming.remaining == 0 || m.at.value !in Opposing(m).levels {
      LoopTurn(m, policy);
    } else {
      var p := m.at.value;
      PurgingFaces(m, p);
      var id := FrontId(Opposing(m).levels[p]).value;
      PurgingForesees(m, p, policy);
      UnsafeMeeting(Purged(m, p), p, id, policy);
    }
  }

  lemma UnsafeMeeting(m: MatchState, p: Price, id: OrderId, policy: StpPolicy)
    requires Facing(m, p, id) && !Safe(m, policy)
    ensures var after := MeetFront(m, p, id, policy);
            Spins(after, policy) || (MatchInv(after) && !Safe(after, policy) && Progress(m, after))
  {
    FacingHead(m, p, id);
    var r := m.book.orders[id];
    if !Conflict(policy, m.incoming.owner, r.owner) {
      TradeFrontKeeps(m, p, id);
      TradeFrontSafety(m, p, id, policy);
      MeetFrontProgress(m, p, id, policy);
    } else if r.position == 0 {
      CancelFrontKeeps(m, p, id);
      CancelFrontForecast(m, p, id, policy);
      MeetFrontProgress(m, p, id, policy);
    } else {
      StaleCancelSpins(m, p, id, policy);
    }
  }

  // ---- whole runs of the loops --------------------------------------------------

  lemma {:induction false} SafeRun(m: MatchState, policy: StpPolicy)
    requires MatchInv(m) && Safe(m, policy)
    ensures Terminates(m, policy)
    ensures var end := Finish(m, policy);
            && end.done && MatchInv(end) && OnlyConsumes(m, end)
            && Foresee(end, policy) == Foresee(m, policy)
    decreases |m.book.LiveOn(m.incoming.side.Opposite())|, Rank(m)
  {
    hide GoodSide;
    FinishOfStep(m, policy);
    if !m.done {
      SafeStep(m, policy);
      SafeRun(Step(m, policy), policy);
    }
  }

  lemma {:induction false} UnsafeRun(m: MatchState, policy: StpPolicy)
    requires MatchInv(m) && !Safe(m, policy)
    ensures !Terminates(m, policy)
    decreases |m.book.LiveOn(m.incoming.side.Opposite())|, Rank(m)
  {
    FinishOfStep(m, policy);
    if m.done {
      DoneMeansOutOfReach(m);
    } else {
      UnsafeStep(m, policy);
      var next := Step(m, policy);
      if Spins(next, policy) {
        var p, id :| Spinning(next, policy, p, id);
        forall n: nat ensures !Iterate(next, policy, n).done {
          SpinningNeverEnds(next, policy, p, id, n);
        }
      } else {
        UnsafeRun(next, policy);
      }
    }
  }

  lemma HeadAtBest(sv: SideState, s: Side, p: Price, orders: OrderMap)
    requires GoodSide(sv, s, orders) && sv.best == Some(p)
    ensures Live(sv, orders) != [] && Live(sv, orders)[0].price == p
  {
    NothingAboveBest(sv, s, p, orders);
    assert GoodLevel(sv.levels[p], s, p, orders);
    EmptyTotalMeansEmptyQueue(sv.levels[p], s, p, orders);
    QueueMembers(sv.levels[p].orders, s, p, orders);
  }

  lemma DoneMeansOutOfReach(m: MatchState)
    requires MatchInv(m) && m.done
    ensures !Reaches(m.book.LiveOn(m.incoming.side.Opposite()), TakerOf(m.incoming))
  {
    var sv, s := Opposing(m), m.incoming.side.Opposite();
    if sv.best.Some? {
      HeadAtBest(sv, s, sv.best.value, m.book.orders);
    } else {
      assert sv.levels.Keys == {};
    }
  }

  predicate Fresh(b: BookState, o: OrderState) {
    o.id !in b.orders
  }

  /** The loops end if and only if no self-trade cancel on the way goes through a
      slot other than 0. */
  lemma MatchingEndsIffSafe(b: BookState, o: OrderState, policy: StpPolicy)
    requires GoodBook(b) && Fresh(b, o)
    ensures Terminates(Start(b, o), policy) <==>
            StpSafe(b.LiveOn(o.side.Opposite()), TakerOf(o), policy, b.orders)
  {
    if Safe(Start(b, o), policy) {
      SafeRun(Start(b, o), policy);
    } else {
      UnsafeRun(Start(b, o), policy);
    }
  }

  lemma ForeseeAtEnd(m: MatchState, policy: StpPolicy)
    requires MatchInv(m) && m.done
    ensures Foresee(m, policy) ==
            Forecast(m.trades, m.incoming.remaining, m.incoming.filled,
                     m.book.LiveOn(m.incoming.side.Opposite()), m.book.LiveOn(m.incoming.side),
                     m.stpCancelled, m.book.nextTradeId, m.book.nextTimestamp)
  {
    DoneMeansOutOfReach(m);
    assert m.trades + [] == m.trades;
  }

  // What the engine leaves behind, against what the greedy walk says.
  ghost predicate AgreesWith(end: MatchState, b: BookState, o: OrderState, g: Outcome) {
    && end.trades == TradesOf(g.fills, b.nextTradeId, b.nextTimestamp, o.id, o.side)
    && end.incoming.remaining == g.left
    && end.incoming.filled == o.filled + Volume(g.fills)
    && end.stpCancelled == g.stopped
    && end.book.LiveOn(o.side.Opposite()) == g.book
    && end.book.LiveOn(o.side) == b.LiveOn(o.side)
    && end.book.nextTradeId == b.nextTradeId + |g.fills|
    && end.book.nextTimestamp == b.nextTimestamp + |g.fills|
  }

  lemma ForeseeAtStart(end: MatchState, b: BookState, o: OrderState, policy: StpPolicy)
    requires Foresee(Start(b, o), policy) ==
             Forecast(end.trades, end.incoming.remaining, end.incoming.filled,
                      end.book.LiveOn(o.side.Opposite()), end.book.LiveOn(o.side),
                      end.stpCancelled, end.book.nextTradeId, end.book.nextTimestamp)
    ensures AgreesWith(end, b, o, Greedy(b.LiveOn(o.side.Opposite()), TakerOf(o), policy))
  {
    var g := Greedy(b.LiveOn(o.side.Opposite()), TakerOf(o), policy);
    var trades := TradesOf(g.fills, b.nextTradeId, b.nextTimestamp, o.id, o.side);
    assert [] + trades == trades;
  }

  /** Level queues, tombstones and cached totals compute the greedy walk over the
      price-time ordered list, trade for trade. */
  lemma MatchingIsGreedy(b: BookState, o: OrderState, policy: StpPolicy)
    requires GoodBook(b) && Fresh(b, o)
    requires StpSafe(b.LiveOn(o.side.Opposite()), TakerOf(o), policy, b.orders)
    ensures var end := Finish(Start(b, o), policy);
            && AgreesWith(end, b, o, Greedy(b.LiveOn(o.side.Opposite()), TakerOf(o), policy))
            && MatchInv(end) && end.done && OnlyConsumes(Start(b, o), end)
  {
    SafeRun(Start(b, o), policy);
    var end := Finish(Start(b, o), policy);
    ForeseeAtEnd(end, policy);
    ForeseeAtStart(end, b, o, policy);
  }
}
