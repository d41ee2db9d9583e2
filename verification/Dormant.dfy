/** Orders that are active but rest nowhere: exactly when a submission leaves one, and what
    cancelling one can do. */
module Dormant {
  import opened Types
  import opened PriceKeys
  import opened OrderModel
  import opened LevelModel
  import opened SideModel
  import opened BookModel
  import opened PriceTime
  import opened MatchModel
  import opened Matching
  import opened Liquidity
  import opened StopModel
  import opened StopTriggers
  import opened StopTrailing
  import opened ExchangeModel
  import opened Submission
  import opened ExchangeSafety
  import opened ExchangeRuns
  import opened Guarantees
  import opened SelfTrade
  import opened StaleSlots

  // On record with an active status, yet in no queue.
  predicate IsDormant(b: BookState, id: OrderId) {
    id in b.orders && b.orders[id].IsActive() && !IsQueued(b, b.orders[id])
  }

  // ---- by the answer -----------------------------------------------------------------

  lemma StoredIsUnqueued(b: BookState, o: OrderState)
    requires GoodBook(b) && Fresh(b, o) && 0 < o.id < b.nextOrderId
    ensures !IsQueued(StoreOrder(b, o), o)
  {
    var sv := b.SideOf(o.side);
    if o.price in sv.levels {
      var queue := sv.levels[o.price].orders;
      assert GoodLevel(sv.levels[o.price], o.side, o.price, b.orders);
      assert forall k | 0 <= k < |queue| :: queue[k] != o.id;
    }
  }

  lemma RestedIsQueued(b: BookState, o: OrderState)
    ensures IsQueued(AddOrder(b, o), AddOrder(b, o).orders[o.id])
  {
    var (sv, slot) := InsertOrder(b.SideOf(o.side), o.price, o.id, o.remaining);
    assert sv.levels[o.price].orders[|sv.levels[o.price].orders| - 1] == o.id;
  }

  lemma SettledDormant(ex: ExchangeState, end: MatchState, quantity: nat, tif: TimeInForce)
    requires GoodBook(end.book) && Fresh(end.book, end.incoming) && 0 < end.incoming.id < end.book.nextOrderId
    requires end.stpCancelled ==> end.incoming.filled < quantity
    ensures var (next, r) := Settle(ex, end, quantity, tif);
            IsDormant(next.book, r.orderId) <==> r.filled > 0 && r.cancelled > 0
  {
    hide GoodBook, IsQueued;
    var o := end.incoming;
    var partly := if o.filled > 0 then PartiallyFilled else Cancelled;
    var open := if o.filled > 0 then PartiallyFilled else New;
    if end.stpCancelled {
      StoredIsUnqueued(end.book, o.(status := partly));
    } else if o.remaining == 0 {
    } else if tif.GTC? {
      RestedIsQueued(end.book, o.(status := open));
    } else {
      StoredIsUnqueued(end.book, o.(status := partly));
    }
  }

  /** A submission leaves a dormant order exactly when it both filled and gave up something. */
  lemma DormantByAnswer(ex: ExchangeState, s: Side, price: Price, quantity: nat, tif: TimeInForce, owner: Option<nat>)
    requires GoodExchange(ex)
    requires SubmitSafe(ex.book, s, price, quantity, owner, ex.policy)
    ensures var (next, r) := Submit(ex, s, price, quantity, tif, owner);
            IsDormant(next.book, r.orderId) <==> r.filled > 0 && r.cancelled > 0
  {
    hide GoodExchange, IsDormant, Settle, SubmitSafe, Greedy;
    if FokRejected(ex.book, s, price, quantity, tif) {
      RejectedIsUnrecorded(ex, s, price, quantity, owner);
    } else {
      var end := Matched(ex, s, price, quantity, tif, owner);
      GoodExchangeBook(ex);
      MatchedAgrees(ex, s, price, quantity, tif, owner);
      GreedyConserves(View(ex.book).On(s.Opposite()), Taker(s, price, quantity, owner), ex.policy);
      SettledDormant(ex, end, quantity, tif);
    }
  }

  lemma GoodExchangeBook(ex: ExchangeState)
    requires GoodExchange(ex)
    ensures GoodBook(ex.book) && ex.book.nextOrderId > 0 && ex.book.nextOrderId !in ex.book.orders
  {
  }

  lemma RejectedIsUnrecorded(ex: ExchangeState, s: Side, price: Price, quantity: nat, owner: Option<nat>)
    requires GoodExchange(ex) && FokRejected(ex.book, s, price, quantity, FOK)
    ensures var (next, r) := Submit(ex, s, price, quantity, FOK, owner);
            !IsDormant(next.book, r.orderId) && r.filled == 0
  {
  }

  // ---- before the call -----------------------------------------------------------------

  // The walk trades before anything makes the taker yield: the own orders in front are taken off.
  ghost predicate MeetsOther(live: seq<Resting>, t: Taker, policy: StpPolicy) {
    exists k: nat :: MeetsAt(live, t, policy, k)
  }

  predicate MeetsAt(live: seq<Resting>, t: Taker, policy: StpPolicy, k: nat) {
    && k < |live| && t.left > 0 && Crosses(t.side, t.limit, live[k].price)
    && !Conflict(policy, t.owner, live[k].owner)
    && forall j | 0 <= j < k :: Conflict(policy, t.owner, live[j].owner) &&
                                !TakerYields(policy, t.left, live[j].quantity)
  }

  lemma {:induction false} GreedyFillsIff(live: seq<Resting>, t: Taker, policy: StpPolicy)
    requires InPriority(t.side.Opposite(), live) && forall r | r in live :: r.quantity > 0
    ensures Volume(Greedy(live, t, policy).fills) > 0 <==> MeetsOther(live, t, policy)
  {
    if !Reaches(live, t) {
      NothingMet(live, t, policy);
    } else if !Conflict(policy, t.owner, live[0].owner) {
      assert MeetsAt(live, t, policy, 0);
      FirstFill(live, t, policy);
    } else if TakerYields(policy, t.left, live[0].quantity) {
      forall k: nat ensures !MeetsAt(live, t, policy, k) {
      }
    } else {
      GreedyFillsIff(live[1..], t, policy);
      MeetsPastHead(live, t, policy);
    }
  }

  lemma NothingMet(live: seq<Resting>, t: Taker, policy: StpPolicy)
    requires InPriority(t.side.Opposite(), live) && !Reaches(live, t)
    ensures !MeetsOther(live, t, policy)
  {
    forall k: nat ensures !MeetsAt(live, t, policy, k) {
      if t.left > 0 && k < |live| {
        NoneCrossBehind(live, t);
        assert live[k] in live;
      }
    }
  }

  lemma FirstFill(live: seq<Resting>, t: Taker, policy: StpPolicy)
    requires Reaches(live, t) && !Conflict(policy, t.owner, live[0].owner) && live[0].quantity > 0
    ensures Volume(Greedy(live, t, policy).fills) > 0
  {
    var fills := Greedy(live, t, policy).fills;
    assert fills != [] && fills[0].quantity > 0;
  }

  lemma MeetsPastHead(live: seq<Resting>, t: Taker, policy: StpPolicy)
    requires live != [] && Conflict(policy, t.owner, live[0].owner)
    requires !TakerYields(policy, t.left, live[0].quantity)
    ensures MeetsOther(live, t, policy) <==> MeetsOther(live[1..], t, policy)
  {
    if MeetsOther(live, t, policy) {
      var k: nat :| MeetsAt(live, t, policy, k);
      forall j | 0 <= j < k - 1
        ensures Conflict(policy, t.owner, live[1..][j].owner) && !TakerYields(policy, t.left, live[1..][j].quantity)
      {
        assert live[1..][j] == live[j + 1];
      }
      assert MeetsAt(live[1..], t, policy, k - 1);
    }
    if MeetsOther(live[1..], t, policy) {
      var k: nat :| MeetsAt(live[1..], t, policy, k);
      forall j | 0 <= j < k + 1
        ensures Conflict(policy, t.owner, live[j].owner) && !TakerYields(policy, t.left, live[j].quantity)
      {
        assert j > 0 ==> live[j] == live[1..][j - 1];
      }
      assert MeetsAt(live, t, policy, k + 1);
    }
  }

  // What a caller can check before submitting.
  ghost predicate LeavesDormant(ex: ExchangeState, s: Side, price: Price, quantity: nat, tif: TimeInForce,
                                owner: Option<nat>)
  {
    var live, t := View(ex.book).On(s.Opposite()), Taker(s, price, quantity, owner);
    && !FokRejected(ex.book, s, price, quantity, tif)
    && MeetsOther(live, t, ex.policy)
    && (Yields(live, t, ex.policy) || (!tif.GTC? && Others(live, t, ex.policy) < quantity))
  }

  /** A submission leaves a dormant order exactly when it trades first and is then stopped by
      self-trade prevention, or may not rest and finds too little from others. */
  lemma DormantIff(ex: ExchangeState, s: Side, price: Price, quantity: nat, tif: TimeInForce, owner: Option<nat>)
    requires GoodExchange(ex)
    requires SubmitSafe(ex.book, s, price, quantity, owner, ex.policy)
    ensures var (next, r) := Submit(ex, s, price, quantity, tif, owner);
            IsDormant(next.book, r.orderId) <==> LeavesDormant(ex, s, price, quantity, tif, owner)
  {
    hide IsDormant, Submit, Greedy, Yields, MeetsOther, Others, GoodBook, GoodStops, SubmitSafe;
    var live, t := View(ex.book).On(s.Opposite()), Taker(s, price, quantity, owner);
    DormantByAnswer(ex, s, price, quantity, tif, owner);
    SubmitIsNaive(ex, s, price, quantity, tif, owner);
    Available(ex.book, s, price);
    SideInPriority(ex.book, s.Opposite());
    GreedyStopsIff(live, t, ex.policy);
    GreedyFillsIff(live, t, ex.policy);
    GreedyConserves(live, t, ex.policy);
  }

  /** Without self-trade prevention only an IOC order that finds some but not all it asks for goes dormant. */
  lemma PlainDormantIff(ex: ExchangeState, s: Side, price: Price, quantity: nat, tif: TimeInForce, owner: Option<nat>)
    requires GoodExchange(ex) && NoStp(ex.policy, owner)
    ensures var (next, r) := Submit(ex, s, price, quantity, tif, owner);
            IsDormant(next.book, r.orderId) <==>
            tif.IOC? && 0 < AvailableToFill(ex.book, s, price) < quantity
  {
    hide IsDormant, Submit, GoodExchange;
    NoStpIsSafe(View(ex.book).On(s.Opposite()), Taker(s, price, quantity, owner), ex.policy, ex.book.orders);
    DormantByAnswer(ex, s, price, quantity, tif, owner);
    if FokRejected(ex.book, s, price, quantity, tif) {
      FokIsAllOrNothing(ex, s, price, quantity, owner);
      GoodExchangeBook(ex);
      Available(ex.book, s, price);
    } else {
      FillsExactly(ex, s, price, quantity, tif, owner);
    }
  }

  // ---- a dormant order takes a stranger out ------------------------------------------------

  function AtHundred(id: OrderId, s: Side, remaining: nat, filled: nat, tif: TimeInForce,
                     status: OrderStatus): OrderState {
    OrderState(id, s, 100, remaining + filled, remaining, filled, id, tif, status, None, 0)
  }

  function OneSell(): BookState {
    BookState(NewSide(Buy), SideState(Sell, map[100 := LevelState(100, [1], 5, 0)], Some(100)),
              map[1 := AtHundred(1, Sell, 5, 0, GTC, New)], 2, 1, 2)
  }

  // Order 2 took order 1 and is left `PartiallyFilled`, in no queue.
  function OneDormant(): BookState {
    BookState(NewSide(Buy), NewSide(Sell),
              map[1 := AtHundred(1, Sell, 0, 5, GTC, Filled), 2 := AtHundred(2, Buy, 5, 5, IOC, PartiallyFilled)],
              3, 2, 4)
  }

  // Order 3 now rests in the slot order 2 remembers.
  function StrangerRests(): BookState {
    BookState(SideState(Buy, map[100 := LevelState(100, [3], 5, 0)], Some(100)), NewSide(Sell),
              OneDormant().orders[3 := OrderState(3, Buy, 100, 5, 5, 0, 4, GTC, New, None, 0)], 4, 2, 5)
  }

  lemma SellRests(ex: ExchangeState)
    requires ex.book == NewBook()
    ensures Submit(ex, Sell, 100, 5, GTC, None).0.book == OneSell()
    ensures Submit(ex, Sell, 100, 5, GTC, None).1.trades == []
  {
    RestsUnopposed(ex, Sell, 100, 5, None);
    var next := Submit(ex, Sell, 100, 5, GTC, None).0.book;
    assert [] + [1] == [1];
    assert next.asks.levels == OneSell().asks.levels;
    assert next.orders == OneSell().orders;
  }

  // The taker at the level it crosses, and one turn later.
  function Meeting(): MatchState {
    MatchState(OneSell().(nextOrderId := 3, nextTimestamp := 3), AtHundred(2, Buy, 10, 0, IOC, New), [], false,
               Some(100), false)
  }

  function Traded(): MatchState {
    MatchState(BookState(NewSide(Buy), NewSide(Sell), map[1 := AtHundred(1, Sell, 0, 5, GTC, Filled)], 3, 2, 4),
               AtHundred(2, Buy, 5, 5, IOC, PartiallyFilled), [Trade(1, 100, 5, 2, 1, Buy, 3)], false, Some(100), false)
  }

  lemma TradeStep()
    ensures Step(Meeting(), Off) == Traded()
  {
    var l := LevelState(100, [1], 5, 0);
    assert PurgeFront(l) == l && [1][1..] == [];
    var b := Meeting().book;
    assert PurgeAt(b, Sell, 100) == b by {
      assert b.asks.levels[100 := l] == b.asks.levels;
    }
    var after := MatchModel.TradeFront(Meeting(), 100, 1);
    assert after.book.orders == Traded().book.orders;
    assert after.book.asks.levels == map[] && after.book.asks.levels.Keys == {};
    assert after.trades == Traded().trades;
  }

  lemma MatchedTake(m: MatchState)
    requires m == Meeting().(at := None)
    ensures Finish(m, Off) == Traded().(at := None, done := true)
  {
    hide OneSell, AtHundred;
    TradeStep();
    FinishOfStep(m, Off);
    assert Step(m, Off) == Meeting() by {
      SellIsBest();
    }
    FinishOfStep(Meeting(), Off);
    FinishOfStep(Traded(), Off);
    FinishOfStep(Traded().(at := None), Off);
    FinishOfStep(Traded().(at := None, done := true), Off);
    TakeEnds();
  }

  lemma SellIsBest()
    ensures Step(Meeting().(at := None), Off) == Meeting()
  {
  }

  lemma TakeEnds()
    ensures Step(Traded(), Off) == Traded().(at := None)
    ensures Step(Traded().(at := None), Off) == Traded().(at := None, done := true)
  {
  }

  lemma BuyTakes(ex: ExchangeState)
    requires ex.book == OneSell() && ex.policy == Off
    ensures Submit(ex, Buy, 100, 10, IOC, None).0.book == OneDormant()
    ensures Submit(ex, Buy, 100, 10, IOC, None).0.stops == ex.stops
    ensures Submit(ex, Buy, 100, 10, IOC, None).1.trades == Traded().trades
  {
    var (b, o) := CreateOrder(ex.book, Buy, 100, 10, IOC);
    MatchedTake(Start(b, o));
    assert Traded().book.orders[2 := Traded().incoming] == OneDormant().orders;
  }

  lemma BuyRests(ex: ExchangeState)
    requires ex.book == OneDormant()
    ensures Submit(ex, Buy, 100, 5, GTC, None).0.book == StrangerRests()
    ensures Submit(ex, Buy, 100, 5, GTC, None).1.trades == []
  {
    RestsUnopposed(ex, Buy, 100, 5, None);
    var next := Submit(ex, Buy, 100, 5, GTC, None).0.book;
    assert [] + [3] == [3];
    assert next.bids.levels == StrangerRests().bids.levels;
    assert next.orders == StrangerRests().orders;
  }

  // A cascade with no stops on record leaves the book alone.
  lemma NoStopsNoChange(ex: ExchangeState)
    requires GoodExchange(ex) && ex.last.Some? && ex.stops.orders == map[]
    ensures ProcessTradeTriggers(ex).book == ex.book
  {
    var p := ex.last.value;
    UpdateExact(ex.stops, p);
    var moved := UpdateTrailing(ex.stops, p);
    assert moved.orders.Keys == {};
    CollectExact(moved, p);
    assert TriggerableIds(moved.orders, p) == {};
    assert Cascade(ex, MAX_CASCADE_DEPTH) == CascadeRound(ex).next;
  }

  const SELL5: Command := Public(LimitEvent(Sell, 100, 5, GTC))
  const TAKE10: Command := Public(LimitEvent(Buy, 100, 10, IOC))
  const BUY5: Command := Public(LimitEvent(Buy, 100, 5, GTC))

  lemma SellStep(ex: ExchangeState)
    requires ex == NewExchange()
    ensures Do(ex, SELL5).book == OneSell() && Do(ex, SELL5).stops.orders == map[] && Do(ex, SELL5).policy == Off
    ensures GoodExchange(Do(ex, SELL5))
  {
    hide GoodExchange;
    NewExchangeIsGood();
    DoKeeps(ex, SELL5);
    SellRests(Log(ex, SELL5.event));
  }

  lemma TakeStep(ex: ExchangeState)
    requires GoodExchange(ex) && ex.book == OneSell() && ex.stops.orders == map[] && ex.policy == Off
    ensures Do(ex, TAKE10).book == OneDormant() && GoodExchange(Do(ex, TAKE10))
  {
    hide GoodBook, GoodStops, Submit;
    DoKeeps(ex, TAKE10);
    var logged := Log(ex, TAKE10.event);
    LogKeeps(ex, TAKE10.event);
    BuyTakes(logged);
    UntaggedIsSafe(logged.book, Buy, 100, 10, Off);
    SubmitKeeps(logged, Buy, 100, 10, IOC, None);
    var next := Submit(logged, Buy, 100, 10, IOC, None).0;
    var priced := next.(last := LastPrice(Traded().trades));
    RepricedIsGood(next, LastPrice(Traded().trades));
    NoStopsNoChange(priced);
  }

  lemma BuyStep(ex: ExchangeState)
    requires GoodExchange(ex) && ex.book == OneDormant()
    ensures Do(ex, BUY5).book == StrangerRests() && GoodExchange(Do(ex, BUY5))
  {
    DoKeeps(ex, BUY5);
    BuyRests(Log(ex, BUY5.event));
  }

  lemma CancelTakesStranger(b: BookState)
    requires b == StrangerRests()
    ensures IsDormant(b, 2) && !CancelSafe(b, 2) && IsQueued(b, b.orders[3])
    ensures var after := CancelOrder(b, 2).0;
            after.bids == NewSide(Buy) && after.orders[3].IsActive() && !IsQueued(after, after.orders[3])
  {
    assert b.bids.levels[100].orders == [3] && [3][0] == 3;
    assert 2 !in [3];
    var after := CancelOrder(b, 2).0;
    assert after.bids.levels == map[] && after.bids.levels.Keys == {};
  }

  /** Three ordinary submissions reach an exchange with a dormant order whose cancel takes a stranger
      out of the book: order 2, half filled, is active and rests nowhere; cancelling it removes order 3. */
  lemma DormantCancelIsReachable()
    ensures var cs := [SELL5, TAKE10, BUY5];
            var ex := Run(NewExchange(), cs);
            && Guarded(NewExchange(), cs) && GoodExchange(ex)
            && IsDormant(ex.book, 2) && !CancelSafe(ex.book, 2) && !CancelWorks(ex.book, 2)
            && 3 in ex.book.orders && IsQueued(ex.book, ex.book.orders[3])
            && var after := CancelOrder(ex.book, 2).0;
               3 in after.orders && after.bids == NewSide(Buy) &&
               after.orders[3].IsActive() && !IsQueued(after, after.orders[3])
  {
    hide Do, GoodExchange, CancelWorks;
    var ex0 := NewExchange();
    var ex1, ex2 := Do(ex0, SELL5), Do(Do(ex0, SELL5), TAKE10);
    SellStep(ex0);
    TakeStep(ex1);
    BuyStep(ex2);
    assert [SELL5, TAKE10, BUY5] == [SELL5] + [TAKE10, BUY5] && [TAKE10, BUY5] == [TAKE10] + [BUY5];
    assert [BUY5] == [BUY5] + [];
    RunOne(ex0, SELL5, [TAKE10, BUY5]);
    RunOne(ex1, TAKE10, [BUY5]);
    RunOne(ex2, BUY5, []);
    CancelTakesStranger(StrangerRests());
    GoodExchangeBook(Do(ex2, BUY5));
    CancelWorksIffSafe(StrangerRests(), 2);
  }
}
