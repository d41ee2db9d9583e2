/** Inputs that show two documented expectations fail: a modify that replays differently, and an
    accepted fill or kill that is cut short. */
module Counterexamples {
  import opened Types
  import opened PriceKeys
  import opened OrderModel
  import opened LevelModel
  import opened SideModel
  import opened BookModel
  import opened PriceTime
  import opened MatchModel
  import opened Matching
  import opened Liquidity
  import opened StopModel
  import opened ExchangeModel
  import opened Submission
  import opened ExchangeSafety
  import opened ExchangeRuns
  import opened Guarantees
  import opened SelfTrade
  import opened ReplayFidelity
  import opened StaleSlots
  import opened Dormant

  // ---- a modify that trades ---------------------------------------------------------

  lemma RestsUncrossed(ex: ExchangeState, s: Side, price: Price, quantity: nat)
    requires quantity > 0
    requires var best := ex.book.SideOf(s.Opposite()).best; best.None? || !Crosses(s, price, best.value)
    ensures var (b, o) := CreateOrder(ex.book, s, price, quantity, GTC);
            var (next, r) := Submit(ex, s, price, quantity, GTC, None);
            next == ex.(book := AddOrder(b, o)) && r.trades == []
  {
    var (b, o) := CreateOrder(ex.book, s, price, quantity, GTC);
    var m := Start(b, o);
    assert Iterate(m, ex.policy, 1) == m.(done := true) by {
      assert Iterate(Step(m, ex.policy), ex.policy, 0) == Step(m, ex.policy);
    }
    FinishIs(m, ex.policy, 1);
    assert ex.trades + [] == ex.trades;
  }

  // A bid at 99 under an ask at 100.
  function Apart(): BookState {
    BookState(SideState(Buy, map[99 := LevelState(99, [2], 5, 0)], Some(99)), OneSell().asks,
              OneSell().orders[2 := OrderState(2, Buy, 99, 5, 5, 0, 2, GTC, New, None, 0)], 3, 1, 3)
  }

  const BID99: Command := Public(LimitEvent(Buy, 99, 5, GTC))
  const UP_TO_100: Event := ModifyEvent(2, 100, 5)

  lemma BidRests(ex: ExchangeState)
    requires ex.book == OneSell()
    ensures Submit(ex, Buy, 99, 5, GTC, None).0 == ex.(book := Apart())
    ensures Submit(ex, Buy, 99, 5, GTC, None).1.trades == []
  {
    RestsUncrossed(ex, Buy, 99, 5);
    var next := Submit(ex, Buy, 99, 5, GTC, None).0.book;
    assert [] + [2] == [2];
    assert next.bids.levels == Apart().bids.levels;
    assert next.orders == Apart().orders;
  }

  lemma BidStep(ex: ExchangeState)
    requires GoodExchange(ex) && ex.book == OneSell() && ex.stops == NewStops()
    ensures Do(ex, BID99).book == Apart() && Do(ex, BID99).stops == NewStops() && GoodExchange(Do(ex, BID99))
  {
    DoKeeps(ex, BID99);
    BidRests(Log(ex, BID99.event));
  }

  lemma AskStep(ex: ExchangeState)
    requires ex == NewExchange()
    ensures Do(ex, SELL5).book == OneSell() && Do(ex, SELL5).stops == NewStops() && GoodExchange(Do(ex, SELL5))
  {
    hide GoodExchange;
    NewExchangeIsGood();
    DoKeeps(ex, SELL5);
    RestsUncrossed(Log(ex, SELL5.event), Sell, 100, 5);
    SellRests(Log(ex, SELL5.event));
  }

  // The liquidity query sees the order in front.
  lemma FrontIsAvailable(b: BookState, s: Side, price: Price, limit: Price)
    requires GoodBook(b) && b.SideOf(s.Opposite()).best == Some(price) && Crosses(s, limit, price)
    ensures AvailableToFill(b, s, limit) > 0
  {
    var sv := b.SideOf(s.Opposite());
    Available(b, s, limit);
    NothingAboveBest(sv, s.Opposite(), price, b.orders);
    assert GoodLevel(sv.levels[price], s.Opposite(), price, b.orders);
    QueueMembers(sv.levels[price].orders, s.Opposite(), price, b.orders);
    var queue := QueueOf(sv.levels[price].orders, b.orders);
    assert queue != [];
    assert b.LiveOn(s.Opposite())[0] == queue[0];
  }

  lemma ModifyIsOpen(ex: ExchangeState)
    requires GoodExchange(ex) && ex.book == Apart()
    ensures EventGuard(ex, UP_TO_100) && CrossingModify(ex, UP_TO_100)
  {
    assert ex.book.bids.levels[99].orders == [2] && [2][0] == 2 && 2 in [2];
    FrontIsAvailable(ex.book, Buy, 100, 100);
  }

  /** Two ordinary submissions reach an exchange where a modify trades, and its event replays differently. */
  lemma CrossingModifyIsReachable()
    ensures var ex := Run(NewExchange(), [SELL5, BID99]);
            && Guarded(NewExchange(), [SELL5, BID99]) && GoodExchange(ex)
            && EventGuard(ex, UP_TO_100) && CrossingModify(ex, UP_TO_100) && TradingModify(ex, UP_TO_100)
            && Apply(ex, UP_TO_100) != Perform(ex, UP_TO_100)
  {
    hide Do, GoodExchange, CrossingModify, TradingModify;
    var ex0 := NewExchange();
    var ex1 := Do(ex0, SELL5);
    AskStep(ex0);
    BidStep(ex1);
    assert [SELL5, BID99] == [SELL5] + [BID99] && [BID99] == [BID99] + [];
    RunOne(ex0, SELL5, [BID99]);
    RunOne(ex1, BID99, []);
    var ex := Do(ex1, BID99);
    ModifyIsOpen(ex);
    TradesIffCrosses(ex, UP_TO_100);
    ReplaysIff(ex, UP_TO_100);
  }

  // ---- an accepted fill or kill that is cut short -------------------------------------------

  lemma TwoOwnLive(b: BookState)
    requires b == BookState(
               NewSide(Buy), AsksAt100([1, 2], 20, 0),
               map[1 := Sell10(1, 10, New, 0, Some(7)), 2 := Sell10(2, 10, New, 1, Some(7))], 3, 1, 3)
    requires GoodBook(b)
    ensures var live := b.LiveOn(Sell);
            && |live| >= 2 && live[0] == RestingOf(b.orders[1]) && live[1] == RestingOf(b.orders[2])
  {
    NothingAboveBest(b.asks, Sell, 100, b.orders);
    var r1, r2 := RestingOf(b.orders[1]), RestingOf(b.orders[2]);
    assert [1, 2][1..] == [2];
    assert QueueOf([2], b.orders) == [r2] && QueueOf([1, 2], b.orders) == [r1] + [r2];
  }

  /** Owner 7 asks for 20 against its own 20 under `CancelNewest`: the check accepts, the order is cut short. */
  lemma FokCutShort()
    ensures var ex := TwoOwn().(policy := CancelNewest);
            && GoodExchange(ex) && SubmitSafe(ex.book, Buy, 100, 20, Some(7), CancelNewest)
            && !FokRejected(ex.book, Buy, 100, 20, FOK)
            && Submit(ex, Buy, 100, 20, FOK, Some(7)).1.filled < 20
  {
    hide TwoOwn;
    TwoOwnIs();
    var ex := TwoOwn().(policy := CancelNewest);
    var live, t := View(ex.book).On(Sell), Taker(Buy, 100, 20, Some(7));
    GoodExchangeBook(TwoOwn());
    TwoOwnLive(ex.book);
    NoStpIsSafe(live, t, CancelNewest, ex.book.orders);
    Available(ex.book, Buy, 100);
    assert Crossing(live[1..], Buy, 100) >= 10;
    assert live[..0] == [];
    assert YieldsAt(live, t, CancelNewest, 0);
    FokFillsIff(ex, Buy, 100, 20, Some(7));
    SubmitConservesFill(ex);
  }

  lemma SubmitConservesFill(ex: ExchangeState)
    requires GoodExchange(ex) && SubmitSafe(ex.book, Buy, 100, 20, Some(7), ex.policy)
    ensures Submit(ex, Buy, 100, 20, FOK, Some(7)).1.filled <= 20
  {
    SubmitIsNaive(ex, Buy, 100, 20, FOK, Some(7));
    GreedyConserves(View(ex.book).On(Sell), Taker(Buy, 100, 20, Some(7)), ex.policy);
  }
}
