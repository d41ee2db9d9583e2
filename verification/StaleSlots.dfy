/** Why the guards are there: remembered slots go stale in ordinary use, and what follows. */
module StaleSlots {
  import opened Types
  import opened PriceKeys
  import opened OrderModel
  import opened LevelModel
  import opened SideModel
  import opened BookModel
  import opened PriceTime
  import opened MatchModel
  import opened Matching
  import opened StopModel
  import opened ExchangeModel
  import opened Submission
  import opened ExchangeSafety
  import opened ExchangeRuns

  // ---- a level that still counts quantity but has nobody in it ----------------------

  ghost predicate Hollow(m: MatchState, p: Price) {
    && !m.done && !m.stpCancelled && m.incoming.remaining > 0
    && Crosses(m.incoming.side, m.incoming.price, p)
    && Opposing(m).best == Some(p) && p in Opposing(m).levels
    && LiveIds(Opposing(m).levels[p].orders) == []
    && (m.at == None || m.at == Some(p))
  }

  lemma HollowStays(m: MatchState, policy: StpPolicy, p: Price)
    requires Hollow(m, p)
    ensures Hollow(Step(m, policy), p)
  {
    FrontIsFirstLive(Opposing(m).levels[p]);
  }

  lemma {:induction false} HollowIterates(m: MatchState, policy: StpPolicy, p: Price, n: nat)
    requires Hollow(m, p)
    ensures !Iterate(m, policy, n).done
    decreases n
  {
    if n > 0 {
      HollowStays(m, policy, p);
      HollowIterates(Step(m, policy), policy, p, n - 1);
    }
  }

  /** Matching that reaches a best level without live orders never ends. */
  lemma HollowNeverEnds(m: MatchState, policy: StpPolicy, p: Price)
    requires Hollow(m, p)
    ensures !Terminates(m, policy)
  {
    forall n: nat ensures !Iterate(m, policy, n).done {
      HollowIterates(m, policy, p, n);
    }
  }

  // ---- a run that gets there ----------------------------------------------------------

  // With nobody opposite, a good-til-cancelled order simply rests.
  lemma RestsUnopposed(ex: ExchangeState, s: Side, price: Price, quantity: nat, owner: Option<nat>)
    requires ex.book.SideOf(s.Opposite()).best == None && quantity > 0
    ensures var (b, o) := CreateOrder(ex.book, s, price, quantity, GTC);
            var (next, r) := Submit(ex, s, price, quantity, GTC, owner);
            && next == ex.(book := AddOrder(b, o.(owner := owner)))
            && r.trades == []
  {
    var (b, o) := CreateOrder(ex.book, s, price, quantity, GTC);
    var m := Start(b, o.(owner := owner));
    assert Iterate(m, ex.policy, 1) == m.(done := true) by {
      assert Iterate(Step(m, ex.policy), ex.policy, 0) == Step(m, ex.policy);
    }
    FinishIs(m, ex.policy, 1);
    assert ex.trades + [] == ex.trades;
  }

  // An order for 10 at 100, as it stands on record.
  function Sell10(id: OrderId, remaining: nat, status: OrderStatus, position: nat, owner: Option<nat>): OrderState {
    OrderState(id, Sell, 100, 10, remaining, 0, id, GTC, status, owner, position)
  }

  function AsksAt100(queue: seq<OrderId>, total: nat, tombstones: int): SideState {
    SideState(Sell, map[100 := LevelState(100, queue, total, tombstones)], Some(100))
  }

  lemma FirstSell(ex: ExchangeState, owner: Option<nat>)
    requires ex.book == NewBook()
    ensures Submit(ex, Sell, 100, 10, GTC, owner) == (ex.(book := BookState(
              NewSide(Buy), AsksAt100([1], 10, 0), map[1 := Sell10(1, 10, New, 0, owner)], 2, 1, 2)),
              Submit(ex, Sell, 100, 10, GTC, owner).1)
    ensures Submit(ex, Sell, 100, 10, GTC, owner).1.trades == []
  {
    RestsUnopposed(ex, Sell, 100, 10, owner);
    var next := Submit(ex, Sell, 100, 10, GTC, owner).0.book;
    assert [] + [1] == [1];
    assert next.asks.levels == map[100 := LevelState(100, [1], 10, 0)];
    assert next.orders == map[1 := Sell10(1, 10, New, 0, owner)];
  }

  lemma SecondSell(ex: ExchangeState, owner: Option<nat>)
    requires ex.book == BookState(NewSide(Buy), AsksAt100([1], 10, 0), map[1 := Sell10(1, 10, New, 0, owner)], 2, 1, 2)
    ensures Submit(ex, Sell, 100, 10, GTC, owner).0 == ex.(book := BookState(
              NewSide(Buy), AsksAt100([1, 2], 20, 0),
              map[1 := Sell10(1, 10, New, 0, owner), 2 := Sell10(2, 10, New, 1, owner)], 3, 1, 3))
    ensures Submit(ex, Sell, 100, 10, GTC, owner).1.trades == []
  {
    RestsUnopposed(ex, Sell, 100, 10, owner);
    var next := Submit(ex, Sell, 100, 10, GTC, owner).0.book;
    assert [1] + [2] == [1, 2];
    assert next.asks.levels == map[100 := LevelState(100, [1, 2], 20, 0)];
    assert next.orders == map[1 := Sell10(1, 10, New, 0, owner), 2 := Sell10(2, 10, New, 1, owner)];
  }

  lemma ThirdSell(ex: ExchangeState, owner: Option<nat>)
    requires ex.book == BookState(NewSide(Buy), AsksAt100([1, 2], 20, 0),
              map[1 := Sell10(1, 10, New, 0, owner), 2 := Sell10(2, 10, New, 1, owner)], 3, 1, 3)
    ensures Submit(ex, Sell, 100, 10, GTC, owner).0 == ex.(book := ThreeSells(owner))
    ensures Submit(ex, Sell, 100, 10, GTC, owner).1.trades == []
  {
    RestsUnopposed(ex, Sell, 100, 10, owner);
    var next := Submit(ex, Sell, 100, 10, GTC, owner).0.book;
    assert [1, 2] + [3] == [1, 2, 3];
    assert next.asks.levels == map[100 := LevelState(100, [1, 2, 3], 30, 0)];
    assert next.orders == ThreeSells(owner).orders;
  }

  function ThreeSells(owner: Option<nat>): BookState {
    BookState(NewSide(Buy), AsksAt100([1, 2, 3], 30, 0),
              map[1 := Sell10(1, 10, New, 0, owner), 2 := Sell10(2, 10, New, 1, owner),
                  3 := Sell10(3, 10, New, 2, owner)], 4, 1, 4)
  }

  const SELL: Command := Public(LimitEvent(Sell, 100, 10, GTC))

  lemma SellDone(ex: ExchangeState)
    requires Submit(Log(ex, LimitEvent(Sell, 100, 10, GTC)), Sell, 100, 10, GTC, None).1.trades == []
    ensures Do(ex, SELL).book == Submit(Log(ex, LimitEvent(Sell, 100, 10, GTC)), Sell, 100, 10, GTC, None).0.book
    ensures Do(ex, SELL).stops ==
            Submit(Log(ex, LimitEvent(Sell, 100, 10, GTC)), Sell, 100, 10, GTC, None).0.stops
  {
  }

  // Three orders rest at 100.
  ghost function AfterSells(): ExchangeState {
    Do(Do(Do(NewExchange(), SELL), SELL), SELL)
  }

  lemma AfterSellsIs()
    ensures AfterSells().book == ThreeSells(None)
    ensures AfterSells().stops == NewStops()
    ensures GoodExchange(AfterSells())
  {
    var e := LimitEvent(Sell, 100, 10, GTC);
    var ex0 := NewExchange();
    var ex1 := Do(ex0, SELL);
    var ex2 := Do(ex1, SELL);
    NewExchangeIsGood();
    DoKeeps(ex0, SELL);
    DoKeeps(ex1, SELL);
    DoKeeps(ex2, SELL);
    FirstSell(Log(ex0, e), None);
    SellDone(ex0);
    SecondSell(Log(ex1, e), None);
    SellDone(ex1);
    ThirdSell(Log(ex2, e), None);
    SellDone(ex2);
  }

  // The first is cancelled and the queue compacted: the other two keep their old slots.
  function Compacted(): BookState {
    BookState(NewSide(Buy), AsksAt100([2, 3], 20, 0),
              map[1 := Sell10(1, 0, Cancelled, 0, None), 2 := Sell10(2, 10, New, 1, None),
                  3 := Sell10(3, 10, New, 2, None)], 4, 1, 4)
  }

  ghost function AfterCompact(): ExchangeState {
    Do(AfterCancel(), CompactBooks)
  }

  // In between, the cancelled order is a tombstone.
  function Tombstoned(): BookState {
    Compacted().(asks := AsksAt100([0, 2, 3], 20, 1))
  }

  lemma CancelFirst(b: BookState)
    requires b == ThreeSells(None)
    ensures CancelOrder(b, 1).0 == Tombstoned() && CancelSafe(b, 1)
  {
    assert [1, 2, 3][0 := 0] == [0, 2, 3];
    assert [1, 2, 3][0] == 1;
    var after := CancelOrder(b, 1).0;
    assert after.asks.levels == map[100 := LevelState(100, [0, 2, 3], 20, 1)];
    assert after.orders == Compacted().orders;
  }

  lemma CompactIs(b: BookState)
    requires b == Tombstoned()
    ensures CompactBook(b) == Compacted()
  {
    LiveIdsOf023();
    var after := CompactBook(b);
    assert after.asks.levels == map[100 := LevelState(100, [2, 3], 20, 0)];
    assert after.bids.levels == map[];
  }

  ghost function AfterCancel(): ExchangeState {
    Do(AfterSells(), Public(CancelEvent(1)))
  }

  lemma AfterCancelIs()
    ensures AfterCancel().book == Tombstoned()
    ensures Guard(AfterSells(), Public(CancelEvent(1)))
    ensures GoodExchange(AfterCancel())
  {
    AfterSellsIs();
    var ex := AfterSells();
    CancelFirst(ex.book);
    DoKeeps(ex, Public(CancelEvent(1)));
  }

  lemma AfterCompactIs()
    ensures AfterCompact().book == Compacted()
    ensures GoodExchange(AfterCompact())
  {
    AfterCancelIs();
    CompactIs(AfterCancel().book);
    DoKeeps(AfterCancel(), CompactBooks);
  }

  lemma LiveIdsOf023()
    ensures LiveIds([0, 2, 3]) == [2, 3]
    ensures LiveIds([0]) == []
  {
    assert [0, 2, 3][1..] == [2, 3] && [2, 3][1..] == [3] && [3][1..] == [];
    assert LiveIds([3]) == [3] && LiveIds([2, 3]) == [2] + [3];
    assert [0][1..] == [];
  }

  // Cancelling order 2 through its slot takes order 3 out instead.
  function Broken(): BookState {
    BookState(NewSide(Buy), AsksAt100([2, 0], 10, 1),
              map[1 := Sell10(1, 0, Cancelled, 0, None), 2 := Sell10(2, 0, Cancelled, 1, None),
                  3 := Sell10(3, 10, New, 2, None)], 4, 1, 4)
  }

  function Buy10(): OrderState {
    OrderState(4, Buy, 100, 10, 10, 0, 4, GTC, New, None, 0)
  }

  lemma BrokenHangs()
    ensures !Terminates(Start(CreateOrder(Broken(), Buy, 100, 10, GTC).0, Buy10()), Off)
  {
    var m0 := Start(CreateOrder(Broken(), Buy, 100, 10, GTC).0, Buy10());
    var m1 := Step(m0, Off);
    assert m1 == m0.(at := Some(100));
    var m2 := Step(m1, Off);
    var l := LevelState(100, [2, 0], 10, 1);
    assert PurgeFront(l) == l;
    assert [2, 0][1..] == [0];
    assert PopFront(l, 0) == LevelState(100, [0], 10, 1);
    assert Opposing(m2).levels[100] == LevelState(100, [0], 10, 1);
    LiveIdsOf023();
    HollowNeverEnds(m2, Off, 100);
    FinishOfStep(m0, Off);
    FinishOfStep(m1, Off);
  }

  lemma CancelSecond(b: BookState)
    requires b == Compacted()
    ensures CancelOrder(b, 2).0 == Broken()
    ensures b.orders[2].IsActive() && IsQueued(b, b.orders[2]) && SlotOf(b, b.orders[2]) == 3
  {
    assert [2, 3][1 := 0] == [2, 0];
    assert [2, 3][0] == 2 && [2, 3][1] == 3;
    var after := CancelOrder(b, 2).0;
    assert after.asks.levels == map[100 := LevelState(100, [2, 0], 10, 1)];
    assert after.orders == Broken().orders;
  }

  lemma RunOne(ex: ExchangeState, c: Command, cs: seq<Command>)
    ensures Run(ex, [c] + cs) == Run(Do(ex, c), cs)
    ensures Guarded(ex, [c] + cs) <==> Guard(ex, c) && Guarded(Do(ex, c), cs)
  {
    assert ([c] + cs)[1..] == cs;
  }

  const TO_STALE: seq<Command> :=
    [SELL] + ([SELL] + ([SELL] + ([Public(CancelEvent(1))] + ([CompactBooks] + []))))

  lemma RunToStale()
    ensures Run(NewExchange(), TO_STALE) == AfterCompact()
    ensures Guarded(NewExchange(), TO_STALE)
  {
    hide Do;
    var ex0 := NewExchange();
    var ex1 := Do(ex0, SELL);
    var ex2 := Do(ex1, SELL);
    AfterCancelIs();
    RunOne(ex0, SELL, TO_STALE[1..]);
    assert TO_STALE == [SELL] + TO_STALE[1..];
    RunOne(ex1, SELL, TO_STALE[2..]);
    assert TO_STALE[1..] == [SELL] + TO_STALE[2..];
    RunOne(ex2, SELL, TO_STALE[3..]);
    assert TO_STALE[2..] == [SELL] + TO_STALE[3..];
    RunOne(AfterSells(), Public(CancelEvent(1)), TO_STALE[4..]);
    assert TO_STALE[3..] == [Public(CancelEvent(1))] + TO_STALE[4..];
    RunOne(AfterCancel(), CompactBooks, []);
    assert TO_STALE[4..] == [CompactBooks] + [];
  }

  /** Five ordinary commands reach an exchange where cancelling order 2 removes order 3,
      leaves a level nobody is in, and makes the next crossing order match for ever. */
  lemma StaleSlotIsReachable()
    ensures var ex := Run(NewExchange(), TO_STALE);
            && Guarded(NewExchange(), TO_STALE) && GoodExchange(ex)
            && 2 in ex.book.orders && ex.book.orders[2].IsActive() && IsQueued(ex.book, ex.book.orders[2])
            && !CancelSafe(ex.book, 2)
            && CancelOrder(ex.book, 2).0 == Broken() && !GoodBook(Broken())
    ensures !Terminates(Start(CreateOrder(Broken(), Buy, 100, 10, GTC).0, Buy10()), Off)
  {
    RunToStale();
    AfterCompactIs();
    CancelSecond(Compacted());
    StaleSlotBreaksBook(Compacted(), 2);
    BrokenHangs();
  }

  // ---- two own orders in a row -----------------------------------------------------------

  // Two orders of owner 7 rest at one price, under `CancelOldest`.
  ghost function TwoOwn(): ExchangeState {
    var start := NewExchange().(policy := CancelOldest);
    Submit(Submit(start, Sell, 100, 10, GTC, Some(7)).0, Sell, 100, 10, GTC, Some(7)).0
  }

  lemma UnopposedIsSafe(ex: ExchangeState)
    requires GoodExchange(ex) && ex.book.bids == NewSide(Buy)
    ensures SubmitSafe(ex.book, Sell, 100, 10, Some(7), ex.policy)
  {
    assert ex.book.bids.levels.Keys == {};
    assert ex.book.LiveOn(Buy) == [];
  }

  lemma TwoOwnIs()
    ensures GoodExchange(TwoOwn()) && TwoOwn().policy == CancelOldest
    ensures TwoOwn().book == BookState(
              NewSide(Buy), AsksAt100([1, 2], 20, 0),
              map[1 := Sell10(1, 10, New, 0, Some(7)), 2 := Sell10(2, 10, New, 1, Some(7))], 3, 1, 3)
  {
    var start := NewExchange().(policy := CancelOldest);
    NewExchangeIsGood();
    UnopposedIsSafe(start);
    SubmitKeeps(start, Sell, 100, 10, GTC, Some(7));
    FirstSell(start, Some(7));
    var one := Submit(start, Sell, 100, 10, GTC, Some(7)).0;
    UnopposedIsSafe(one);
    SubmitKeeps(one, Sell, 100, 10, GTC, Some(7));
    SecondSell(one, Some(7));
  }

  /** Under `CancelOldest` a taker that meets two of its own orders at one price never
      finishes matching: the second one remembers slot 1. */
  lemma TwoOwnOrdersHang()
    ensures var b := TwoOwn().book;
            var (made, o) := CreateOrder(b, Buy, 100, 20, GTC);
            GoodBook(b) && !Terminates(Start(made, o.(owner := Some(7))), CancelOldest)
  {
    hide TwoOwn;
    TwoOwnIs();
    var b := TwoOwn().book;
    var (made, plain) := CreateOrder(b, Buy, 100, 20, GTC);
    var o := plain.(owner := Some(7));
    Created(b, Buy, 100, 20, GTC, Some(7));
    NothingAboveBest(b.asks, Sell, 100, b.orders);
    var r1, r2 := RestingOf(b.orders[1]), RestingOf(b.orders[2]);
    assert [1, 2][1..] == [2];
    assert QueueOf([2], b.orders) == [r2] && QueueOf([1, 2], b.orders) == [r1] + [r2];
    var live := b.LiveOn(Sell);
    assert live[0] == r1 && live[1..][0] == r2;
    assert !StpSafe(live[1..], TakerOf(o), CancelOldest, b.orders);
    MatchingEndsIffSafe(made, o, CancelOldest);
  }
}
