/** What a submitter is promised: exact fills, all or nothing, fair prices, no self-trade. */
module Guarantees {
  import opened Types
  import opened PriceKeys
  import opened OrderModel
  import opened LevelModel
  import opened SideModel
  import opened BookModel
  import opened PriceTime
  import opened MatchModel
  import opened Matching
  import opened Liquidity
  import opened ExchangeModel
  import opened Submission
  import opened ExchangeSafety

  lemma {:induction false} TradesAreFills(fills: seq<Fill>, tradeId: nat, timestamp: nat, id: OrderId, s: Side)
    ensures |TradesOf(fills, tradeId, timestamp, id, s)| == |fills|
    ensures forall k | 0 <= k < |fills| ::
              TradesOf(fills, tradeId, timestamp, id, s)[k] ==
              Trade(tradeId + k, fills[k].price, fills[k].quantity, id, fills[k].maker, s, timestamp + k)
  {
    if fills != [] {
      TradesAreFills(fills[1..], tradeId + 1, timestamp + 1, id, s);
    }
  }

  lemma SideInPriority(b: BookState, s: Side)
    requires GoodBook(b)
    ensures InPriority(s, b.LiveOn(s))
    ensures forall r | r in b.LiveOn(s) :: Shows(r, b.SideOf(s), b.orders)
  {
    LiveIsPriceTimeOrder(b.SideOf(s), s, b.orders);
    FlatMembers(SortedKeys(s, b.SideOf(s).levels.Keys), b.SideOf(s), s, b.orders);
  }

  lemma NoClash(policy: StpPolicy, owner: Option<nat>, live: seq<Resting>)
    requires NoStp(policy, owner)
    ensures !Clashes(policy, owner, live)
  {
  }

  /** Without self-trade prevention a submission that is not rejected fills exactly the
      smaller of its quantity and what the liquidity query says is available. */
  lemma FillsExactly(ex: ExchangeState, s: Side, price: Price, quantity: nat, tif: TimeInForce, owner: Option<nat>)
    requires GoodExchange(ex) && NoStp(ex.policy, owner)
    requires !FokRejected(ex.book, s, price, quantity, tif)
    ensures var r := Submit(ex, s, price, quantity, tif, owner).1;
            && r.filled == Min(quantity, AvailableToFill(ex.book, s, price))
            && r.filled == Volume(Greedy(View(ex.book).On(s.Opposite()), Taker(s, price, quantity, owner),
                                         ex.policy).fills)
            && (r.status.Filled? <==> r.filled == quantity)
            && (tif.GTC? ==> r.resting == quantity - r.filled && r.cancelled == 0)
            && (!tif.GTC? ==> r.resting == 0 && r.cancelled == quantity - r.filled)
  {
    var live, t := View(ex.book).On(s.Opposite()), Taker(s, price, quantity, owner);
    NoStpIsSafe(live, t, ex.policy, ex.book.orders);
    SubmitIsNaive(ex, s, price, quantity, tif, owner);
    Available(ex.book, s, price);
    SideInPriority(ex.book, s.Opposite());
    NoClash(ex.policy, owner, live);
    GreedyTradesAllItCan(live, t, ex.policy);
  }

  /** Fill or kill: rejected exactly when crossing liquidity is short, and then nothing
      but the id counter moves; otherwise filled in full. */
  lemma FokIsAllOrNothing(ex: ExchangeState, s: Side, price: Price, quantity: nat, owner: Option<nat>)
    requires GoodExchange(ex) && NoStp(ex.policy, owner)
    ensures var (next, r) := Submit(ex, s, price, quantity, FOK, owner);
            var short := Crossing(View(ex.book).On(s.Opposite()), s, price) < quantity;
            && (short ==> r.filled == 0 && r.trades == [] && r.status.Cancelled? && r.cancelled == quantity
                          && next.book.bids == ex.book.bids && next.book.asks == ex.book.asks
                          && next.book.orders == ex.book.orders && next.trades == ex.trades
                          && r.orderId !in next.book.orders)
            && (!short ==> r.filled == quantity && r.status.Filled? && r.cancelled == 0)
  {
    Available(ex.book, s, price);
    if !FokRejected(ex.book, s, price, quantity, FOK) {
      FillsExactly(ex, s, price, quantity, FOK, owner);
    }
  }

  // What a trade owes both parties.
  ghost predicate FairTrade(t: Trade, orders: OrderMap, s: Side, limit: Price, owner: Option<nat>, policy: StpPolicy) {
    && t.aggressorSide == s && t.quantity > 0
    && t.passive in orders && orders[t.passive].side == s.Opposite()
    && t.price == orders[t.passive].price && t.quantity <= orders[t.passive].remaining
    && Crosses(s, limit, t.price)
    && (!policy.Off? && owner.Some? ==> orders[t.passive].owner != owner)
  }

  lemma FairFillIsFairTrade(b: BookState, s: Side, limit: Price, quantity: nat, owner: Option<nat>,
                            policy: StpPolicy, f: Fill, t: Trade)
    requires GoodBook(b)
    requires exists r | r in b.LiveOn(s.Opposite()) :: FairFill(f, r, Taker(s, limit, quantity, owner), policy)
    requires t.aggressorSide == s && t.price == f.price && t.quantity == f.quantity && t.passive == f.maker
    ensures FairTrade(t, b.orders, s, limit, owner, policy)
  {
    var r :| r in b.LiveOn(s.Opposite()) && FairFill(f, r, Taker(s, limit, quantity, owner), policy);
    ShownSide(b, s.Opposite(), r);
  }

  lemma FillsMakeFairTrades(b: BookState, t: Taker, policy: StpPolicy, tradeId: nat, timestamp: nat, id: OrderId)
    requires GoodBook(b)
    ensures var fills := Greedy(b.LiveOn(t.side.Opposite()), t, policy).fills;
            forall x | x in TradesOf(fills, tradeId, timestamp, id, t.side) ::
              FairTrade(x, b.orders, t.side, t.limit, t.owner, policy)
  {
    var fills := Greedy(b.LiveOn(t.side.Opposite()), t, policy).fills;
    SideInPriority(b, t.side.Opposite());
    FillsAreFair(b.LiveOn(t.side.Opposite()), t, policy);
    TradesAreFills(fills, tradeId, timestamp, id, t.side);
    var trades := TradesOf(fills, tradeId, timestamp, id, t.side);
    forall x | x in trades ensures FairTrade(x, b.orders, t.side, t.limit, t.owner, policy) {
      var k :| 0 <= k < |trades| && trades[k] == x;
      assert fills[k] in fills;
      FairFillIsFairTrade(b, t.side, t.limit, t.left, t.owner, policy, fills[k], x);
    }
  }

  /** Every trade is at the resting order's own price, inside the taker's limit, and
      under any policy but `Off` never between two orders of one owner. */
  lemma TradesAreFair(ex: ExchangeState, s: Side, price: Price, quantity: nat, tif: TimeInForce, owner: Option<nat>)
    requires GoodExchange(ex)
    requires SubmitSafe(ex.book, s, price, quantity, owner, ex.policy)
    ensures var r := Submit(ex, s, price, quantity, tif, owner).1;
            forall t | t in r.trades :: FairTrade(t, ex.book.orders, s, price, owner, ex.policy)
  {
    SubmitIsNaive(ex, s, price, quantity, tif, owner);
    FillsMakeFairTrades(ex.book, Taker(s, price, quantity, owner), ex.policy,
                        ex.book.nextTradeId, ex.book.nextTimestamp + 1, ex.book.nextOrderId);
    assert TradesOf([], ex.book.nextTradeId, ex.book.nextTimestamp + 1, ex.book.nextOrderId, s) == [];
  }

  lemma ShownSide(b: BookState, s: Side, r: Resting)
    requires GoodBook(b) && r in b.LiveOn(s)
    ensures r.id in b.orders && r == RestingOf(b.orders[r.id])
    ensures b.orders[r.id].side == s && b.orders[r.id].price == r.price && b.orders[r.id].IsActive()
  {
    SideInPriority(b, s);
    assert GoodLevel(b.SideOf(s).levels[r.price], s, r.price, b.orders);
    var k :| 0 <= k < |b.SideOf(s).levels[r.price].orders| && b.SideOf(s).levels[r.price].orders[k] == r.id;
    assert Rests(b.orders[r.id], r.id, s, r.price);
  }

  /** An order self-trade prevention stopped never rests, whatever its time in force. */
  lemma StoppedNeverRests(ex: ExchangeState, s: Side, price: Price, quantity: nat, tif: TimeInForce, owner: Option<nat>)
    requires GoodExchange(ex)
    requires SubmitSafe(ex.book, s, price, quantity, owner, ex.policy)
    requires !FokRejected(ex.book, s, price, quantity, tif)
    requires Greedy(View(ex.book).On(s.Opposite()), Taker(s, price, quantity, owner), ex.policy).stopped
    ensures var (next, r) := Submit(ex, s, price, quantity, tif, owner);
            && r.resting == 0 && r.cancelled == quantity - r.filled && r.cancelled > 0
            && View(next.book).On(s) == View(ex.book).On(s)
            && r.orderId in next.book.orders && !IsQueued(next.book, next.book.orders[r.orderId])
  {
    var g := Greedy(View(ex.book).On(s.Opposite()), Taker(s, price, quantity, owner), ex.policy);
    SubmitIsNaive(ex, s, price, quantity, tif, owner);
    Available(ex.book, s, price);
    GreedyConserves(View(ex.book).On(s.Opposite()), Taker(s, price, quantity, owner), ex.policy);
    var (next, r) := Submit(ex, s, price, quantity, tif, owner);
    MatchedAgrees(ex, s, price, quantity, tif, owner);
    assert next.book.orders[r.orderId].remaining == 0;
    QueuedIsOpen(next.book, r.orderId);
  }
}
