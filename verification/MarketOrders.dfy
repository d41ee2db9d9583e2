/** Market orders and fired stops: what they trade against, on either side. */
module MarketOrders {
  import opened Types
  import opened PriceKeys
  import opened SideModel
  import opened BookModel
  import opened PriceTime
  import opened Matching
  import opened Liquidity
  import opened StopModel
  import opened ExchangeModel
  import opened Submission
  import opened ExchangeSafety
  import opened Guarantees
  import opened Dormant

  // Every price on the list is a signed 64-bit number.
  predicate Representable(live: seq<Resting>) {
    forall r | r in live :: -9223372036854775808 <= r.price <= 9223372036854775807
  }

  // The answer to an order that never rests: `filled` traded, the rest cancelled.
  predicate TradedOrCancelled(r: SubmitResult, quantity: nat, filled: nat) {
    && r.filled == filled <= quantity && r.resting == 0 && r.cancelled == quantity - filled
    && r.status == if filled == quantity then Filled else if filled == 0 then Cancelled else PartiallyFilled
  }

  lemma AllCross(live: seq<Resting>, s: Side)
    requires Representable(live)
    ensures Crossing(live, s, MarketPrice(s)) == SumQuantity(live)
  {
    CrossingUniform(live, s, MarketPrice(s), true);
  }

  /** A market order on either side, whatever the policy, trades the smaller of what it asks for and
      everything the other side has; the rest is cancelled and its own side does not change. */
  lemma MarketTakesTheSide(ex: ExchangeState, s: Side, quantity: nat)
    requires GoodExchange(ex) && Representable(View(ex.book).On(s.Opposite()))
    ensures var (next, r) := Submit(ex, s, MarketPrice(s), quantity, IOC, None);
            var live := View(ex.book).On(s.Opposite());
            && TradedOrCancelled(r, quantity, Min(quantity, SumQuantity(live)))
            && SumQuantity(View(next.book).On(s.Opposite())) == SumQuantity(live) - r.filled
            && View(next.book).On(s) == View(ex.book).On(s)
  {
    var live, price := View(ex.book).On(s.Opposite()), MarketPrice(s);
    var t := Taker(s, price, quantity, None);
    GoodExchangeBook(ex);
    AllCross(live, s);
    UntaggedIsSafe(ex.book, s, price, quantity, ex.policy);
    SubmitIsNaive(ex, s, price, quantity, IOC, None);
    SideInPriority(ex.book, s.Opposite());
    NoClash(ex.policy, None, live);
    GreedyTradesAllItCan(live, t, ex.policy);
  }

  // What a stop that fires asks of the other side: up to its limit, or everything.
  function Asked(o: StopOrder, live: seq<Resting>): nat {
    match o.limitPrice
    case None => SumQuantity(live)
    case Some(limit) => Within(live, o.side, limit)
  }

  // The quantity on the list at `limit` or better for a taker on side `s`.
  function Within(live: seq<Resting>, s: Side, limit: Price): nat {
    if live == [] then 0
    else
      (if (if s.Buy? then live[0].price <= limit else live[0].price >= limit) then live[0].quantity else 0) +
      Within(live[1..], s, limit)
  }

  lemma {:induction false} WithinIsCrossing(live: seq<Resting>, s: Side, limit: Price)
    ensures Within(live, s, limit) == Crossing(live, s, limit)
  {
    if live != [] {
      WithinIsCrossing(live[1..], s, limit);
    }
  }

  /** A fired stop trades on its own side for its own quantity: without a limit against everything and
      never resting, with one up to the limit, all or nothing if it is fill or kill, resting the rest
      exactly if it is good till cancelled. */
  lemma FiredStopTrades(ex: ExchangeState, o: StopOrder)
    requires GoodExchange(ex) && Representable(View(ex.book).On(o.side.Opposite()))
    ensures var (next, r) := SubmitStop(ex, o);
            var live := View(ex.book).On(o.side.Opposite());
            var tif := if o.limitPrice.None? then IOC else o.tif;
            var filled := if tif.FOK? && Asked(o, live) < o.quantity then 0 else Min(o.quantity, Asked(o, live));
            && r.filled == filled
            && r.resting == (if tif.GTC? then o.quantity - filled else 0)
            && r.cancelled == (if tif.GTC? then 0 else o.quantity - filled)
            && SumQuantity(View(next.book).On(o.side.Opposite())) == SumQuantity(live) - filled
            && View(next.book).On(o.side) ==
               if r.resting == 0 then View(ex.book).On(o.side)
               else InsertByPriority(o.side, View(ex.book).On(o.side),
                                     Resting(r.orderId, o.limitPrice.value, r.resting, None))
  {
    hide GoodExchange, Crossing, Greedy, MarketPrice, AvailableToFill, SumQuantity;
    match o.limitPrice
    case None =>
      MarketTakesTheSide(ex, o.side, o.quantity);
    case Some(limit) =>
      var live, t := View(ex.book).On(o.side.Opposite()), Taker(o.side, limit, o.quantity, None);
      GoodExchangeBook(ex);
      WithinIsCrossing(live, o.side, limit);
      UntaggedIsSafe(ex.book, o.side, limit, o.quantity, ex.policy);
      SubmitIsNaive(ex, o.side, limit, o.quantity, o.tif, None);
      SideInPriority(ex.book, o.side.Opposite());
      NoClash(ex.policy, None, live);
      GreedyTradesAllItCan(live, t, ex.policy);
  }
}
