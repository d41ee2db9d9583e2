/** One submission against a naive exchange that keeps each side as one sorted list. */
module Submission {
  import opened Types
  import opened PriceKeys
  import opened OrderModel
  import opened LevelModel
  import opened SideModel
  import opened BookModel
  import opened PriceTime
  import opened MatchModel
  import opened Matching
  import opened Liquidity
  import opened ExchangeModel

  // ---- the naive exchange's book ---------------------------------------------

  datatype NaiveBook = NaiveBook(bids: seq<Resting>, asks: seq<Resting>) {
    function On(s: Side): seq<Resting> {
      if s.Buy? then bids else asks
    }

    function With(s: Side, live: seq<Resting>): NaiveBook {
      if s.Buy? then this.(bids := live) else this.(asks := live)
    }
  }

  ghost function View(b: BookState): NaiveBook {
    NaiveBook(b.LiveOn(Buy), b.LiveOn(Sell))
  }

  datatype NaiveResult = NaiveResult(
    book: NaiveBook,
    fills: seq<Fill>,
    status: OrderStatus,
    filled: nat,
    resting: nat,
    cancelled: int)

  function SubmitNaively(nb: NaiveBook, id: OrderId, s: Side, price: Price, quantity: nat, tif: TimeInForce,
                         owner: Option<nat>, policy: StpPolicy): NaiveResult
  {
    var opposing := nb.On(s.Opposite());
    if tif.FOK? && Crossing(opposing, s, price) < quantity then
      NaiveResult(nb, [], Cancelled, 0, 0, quantity)
    else
      var g := Greedy(opposing, Taker(s, price, quantity, owner), policy);
      var filled := Volume(g.fills);
      var partly := if filled > 0 then PartiallyFilled else Cancelled;
      var matched := nb.With(s.Opposite(), g.book);
      if g.stopped then NaiveResult(matched, g.fills, partly, filled, 0, quantity - filled)
      else if g.left == 0 then NaiveResult(matched, g.fills, Filled, filled, 0, 0)
      else if tif.GTC? then
        var rested := InsertByPriority(s, matched.On(s), Resting(id, price, g.left, owner));
        NaiveResult(matched.With(s, rested), g.fills, if filled > 0 then PartiallyFilled else New, filled, g.left, 0)
      else NaiveResult(matched, g.fills, partly, filled, 0, g.left)
  }

  // ---- the engine does the same -----------------------------------------------

  // A caller's check before submitting: always true for an untagged order, and under
  // `Off` and `CancelNewest`.
  ghost predicate SubmitSafe(b: BookState, s: Side, price: Price, quantity: nat, owner: Option<nat>,
                             policy: StpPolicy)
  {
    StpSafe(b.LiveOn(s.Opposite()), Taker(s, price, quantity, owner), policy, b.orders)
  }

  lemma FreshOrderStored(b: BookState, o: OrderState)
    requires GoodBook(b) && Fresh(b, o) && 0 < o.id < b.nextOrderId
    ensures GoodBook(StoreOrder(b, o)) && View(StoreOrder(b, o)) == View(b)
  {
    OtherSideFrame(b.bids, Buy, b.orders, o.id, o);
    OtherSideFrame(b.asks, Sell, b.orders, o.id, o);
  }

  lemma FreshOrderRested(b: BookState, o: OrderState)
    requires GoodBook(b) && Fresh(b, o) && 0 < o.id == b.nextOrderId - 1
    requires o.remaining > 0 && o.IsActive()
    ensures GoodBook(AddOrder(b, o))
    ensures View(AddOrder(b, o)) == View(b).With(o.side, InsertByPriority(o.side, View(b).On(o.side), RestingOf(o)))
    ensures AddOrder(b, o).SideOf(o.side).levels.Keys == b.SideOf(o.side).levels.Keys + {o.price}
    ensures AddOrder(b, o).SideOf(o.side.Opposite()) == b.SideOf(o.side.Opposite())
  {
    AddOrderIsInsertion(b, o);
  }

  // The book a submission is matched against, and the order it brings.
  lemma Created(b: BookState, s: Side, price: Price, quantity: nat, tif: TimeInForce, owner: Option<nat>)
    requires GoodBook(b) && b.nextOrderId > 0
    ensures var made := CreateOrder(b, s, price, quantity, tif).0;
            var o := Incoming(b, s, price, quantity, tif, owner);
            && GoodBook(made) && View(made) == View(b) && Fresh(made, o)
            && made.bids == b.bids && made.asks == b.asks && made.orders == b.orders
            && TakerOf(o) == Taker(s, price, quantity, owner)
  {
  }

  // Where matching a submission ends.
  ghost function Matched(ex: ExchangeState, s: Side, price: Price, quantity: nat, tif: TimeInForce,
                         owner: Option<nat>): MatchState
  {
    Finish(Start(CreateOrder(ex.book, s, price, quantity, tif).0,
                 Incoming(ex.book, s, price, quantity, tif, owner)), ex.policy)
  }

  lemma MatchedAgrees(ex: ExchangeState, s: Side, price: Price, quantity: nat, tif: TimeInForce, owner: Option<nat>)
    requires GoodBook(ex.book) && ex.book.nextOrderId > 0
    requires SubmitSafe(ex.book, s, price, quantity, owner, ex.policy)
    ensures var end := Matched(ex, s, price, quantity, tif, owner);
            var g := Greedy(View(ex.book).On(s.Opposite()), Taker(s, price, quantity, owner), ex.policy);
            var o := Incoming(ex.book, s, price, quantity, tif, owner);
            && GoodBook(end.book) && Fresh(end.book, end.incoming) && MatchInv(end) && end.done
            && OnlyConsumes(Start(CreateOrder(ex.book, s, price, quantity, tif).0, o), end)
            && end.trades == TradesOf(g.fills, ex.book.nextTradeId, ex.book.nextTimestamp + 1, o.id, s)
            && end.incoming.remaining == g.left && end.incoming.filled == Volume(g.fills)
            && end.stpCancelled == g.stopped
            && View(end.book) == View(ex.book).With(s.Opposite(), g.book)
            && end.book.nextTradeId == ex.book.nextTradeId + |g.fills|
            && end.book.nextTimestamp == ex.book.nextTimestamp + 1 + |g.fills|
  {
    var made := CreateOrder(ex.book, s, price, quantity, tif).0;
    var o := Incoming(ex.book, s, price, quantity, tif, owner);
    Created(ex.book, s, price, quantity, tif, owner);
    MatchingIsGreedy(made, o, ex.policy);
  }

  // The engine's answer, against the naive one.
  ghost predicate SameAnswer(r: SubmitResult, n: NaiveResult, b: BookState, s: Side) {
    && r.orderId == b.nextOrderId
    && r.trades == TradesOf(n.fills, b.nextTradeId, b.nextTimestamp + 1, r.orderId, s)
    && r.status == n.status && r.filled == n.filled && r.resting == n.resting && r.cancelled == n.cancelled
  }

  lemma Available(b: BookState, s: Side, price: Price)
    requires GoodBook(b)
    ensures AvailableToFill(b, s, price) == Crossing(View(b).On(s.Opposite()), s, price)
  {
    AvailableIsCrossing(b.SideOf(s.Opposite()), s.Opposite(), b.orders, price);
  }

  lemma SettleIsNaive(ex: ExchangeState, s: Side, price: Price, quantity: nat, tif: TimeInForce, owner: Option<nat>)
    requires GoodBook(ex.book) && ex.book.nextOrderId > 0
    requires SubmitSafe(ex.book, s, price, quantity, owner, ex.policy)
    requires !FokRejected(ex.book, s, price, quantity, tif)
    ensures var (next, r) := Settle(ex, Matched(ex, s, price, quantity, tif, owner), quantity, tif);
            var n := SubmitNaively(View(ex.book), ex.book.nextOrderId, s, price, quantity, tif, owner, ex.policy);
            && GoodBook(next.book) && View(next.book) == n.book
            && SameAnswer(r, n, ex.book, s)
  {
    var end := Matched(ex, s, price, quantity, tif, owner);
    MatchedAgrees(ex, s, price, quantity, tif, owner);
    Available(ex.book, s, price);
    var o := end.incoming;
    var partly := if o.filled > 0 then PartiallyFilled else Cancelled;
    var open := if o.filled > 0 then PartiallyFilled else New;
    if end.stpCancelled {
      FreshOrderStored(end.book, o.(status := partly));
    } else if o.remaining == 0 {
      FreshOrderStored(end.book, o.(status := Filled));
    } else if tif.GTC? {
      FreshOrderRested(end.book, o.(status := open));
    } else {
      FreshOrderStored(end.book, o.(status := partly));
    }
  }

  /** A submission does to the price-time lists, and answers, what the naive exchange does. */
  lemma SubmitIsNaive(ex: ExchangeState, s: Side, price: Price, quantity: nat, tif: TimeInForce, owner: Option<nat>)
    requires GoodBook(ex.book) && ex.book.nextOrderId > 0
    requires SubmitSafe(ex.book, s, price, quantity, owner, ex.policy)
    ensures var (next, r) := Submit(ex, s, price, quantity, tif, owner);
            var n := SubmitNaively(View(ex.book), ex.book.nextOrderId, s, price, quantity, tif, owner, ex.policy);
            && GoodBook(next.book) && View(next.book) == n.book
            && SameAnswer(r, n, ex.book, s)
  {
    Available(ex.book, s, price);
    if FokRejected(ex.book, s, price, quantity, tif) {
      Created(ex.book, s, price, quantity, tif, owner);
      assert TradesOf([], ex.book.nextTradeId, ex.book.nextTimestamp + 1, ex.book.nextOrderId, s) == [];
    } else {
      SettleIsNaive(ex, s, price, quantity, tif, owner);
    }
  }
}
