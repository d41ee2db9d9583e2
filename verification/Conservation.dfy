/** Nothing is traded that is not booked: fills against the trade log, over any guarded run. */
module Conservation {
  import opened Types
  import opened OrderModel
  import opened LevelModel
  import opened SideModel
  import opened BookModel
  import opened PriceTime
  import opened MatchModel
  import opened Matching
  import opened Liquidity
  import opened StopModel
  import opened StopTriggers
  import opened ExchangeModel
  import opened Submission
  import opened ExchangeSafety
  import opened ExchangeRuns

  predicate Names(t: Trade, id: OrderId) {
    t.aggressor == id || t.passive == id
  }

  function TradedBy(trades: seq<Trade>, id: OrderId): nat {
    if trades == [] then 0
    else TradedBy(trades[..|trades| - 1], id) +
         (if Names(trades[|trades| - 1], id) then trades[|trades| - 1].quantity else 0)
  }

  function TradedVolume(trades: seq<Trade>): nat {
    if trades == [] then 0
    else TradedVolume(trades[..|trades| - 1]) + trades[|trades| - 1].quantity
  }

  // The two orders a trade joins are on record, on the sides it says.
  predicate Recorded(t: Trade, orders: OrderMap) {
    && t.aggressor in orders && orders[t.aggressor].side == t.aggressorSide
    && t.passive in orders && orders[t.passive].side == t.aggressorSide.Opposite()
  }

  ghost predicate Ledger(orders: OrderMap, trades: seq<Trade>) {
    && (forall id | id in orders ::
          orders[id].filled == TradedBy(trades, id) && orders[id].Balanced())
    && (forall t | t in trades :: Recorded(t, orders))
  }

  lemma {:induction false} UnnamedTradesNothing(trades: seq<Trade>, id: OrderId)
    requires forall t | t in trades :: !Names(t, id)
    ensures TradedBy(trades, id) == 0
  {
    if trades != [] {
      UnnamedTradesNothing(trades[..|trades| - 1], id);
    }
  }

  lemma LedgerRecords(orders: OrderMap, trades: seq<Trade>, o: OrderState)
    requires Ledger(orders, trades) && o.id !in orders
    requires o.filled == 0 && o.Balanced()
    ensures Ledger(orders[o.id := o], trades)
  {
    forall t | t in trades ensures !Names(t, o.id) {
      assert Recorded(t, orders);
    }
    UnnamedTradesNothing(trades, o.id);
  }

  // Restating an order without trading it keeps the books.
  lemma LedgerRestates(orders: OrderMap, trades: seq<Trade>, o: OrderState)
    requires Ledger(orders, trades) && o.id in orders
    requires o.filled == orders[o.id].filled && o.side == orders[o.id].side && o.Balanced()
    ensures Ledger(orders[o.id := o], trades)
  {
    forall t | t in trades ensures Recorded(t, orders[o.id := o]) {
      assert Recorded(t, orders);
    }
  }

  lemma TradedByAppend(trades: seq<Trade>, t: Trade, id: OrderId)
    ensures TradedBy(trades + [t], id) == TradedBy(trades, id) + (if Names(t, id) then t.quantity else 0)
  {
    var log := trades + [t];
    assert log[..|log| - 1] == trades && log[|log| - 1] == t;
  }

  function Traded(orders: OrderMap, t: Trade): OrderMap
    requires t.aggressor in orders && t.passive in orders
    requires t.quantity <= orders[t.aggressor].remaining && t.quantity <= orders[t.passive].remaining
  {
    orders[t.passive := orders[t.passive].Fill(t.quantity)][t.aggressor := orders[t.aggressor].Fill(t.quantity)]
  }

  lemma LedgerTrades(orders: OrderMap, trades: seq<Trade>, t: Trade)
    requires Ledger(orders, trades) && Recorded(t, orders) && t.aggressor != t.passive
    requires t.quantity <= orders[t.aggressor].remaining && t.quantity <= orders[t.passive].remaining
    ensures Ledger(Traded(orders, t), trades + [t])
  {
    var after := Traded(orders, t);
    forall id | id in after
      ensures after[id].filled == TradedBy(trades + [t], id) && after[id].Balanced()
    {
      TradedByAppend(trades, t, id);
      assert orders[id].filled == TradedBy(trades, id) && orders[id].Balanced();
    }
    forall x | x in trades + [t] ensures Recorded(x, after) {
      assert Recorded(x, orders);
    }
  }

  // ---- matching keeps the ledger -----------------------------------------------

  // The order map with the incoming order on record.
  function Everyone(m: MatchState): OrderMap {
    m.book.orders[m.incoming.id := m.incoming]
  }

  lemma TradeFrontLedger(m: MatchState, p: Price, id: OrderId, base: seq<Trade>)
    requires Facing(m, p, id) && Ledger(Everyone(m), base + m.trades)
    ensures var after := TradeFront(m, p, id);
            Ledger(Everyone(after), base + after.trades)
  {
    FacingHead(m, p, id);
    var after := TradeFront(m, p, id);
    var t := after.trades[|m.trades|];
    LedgerTrades(Everyone(m), base + m.trades, t);
    assert base + after.trades == base + m.trades + [t];
    assert Everyone(after) == Traded(Everyone(m), t);
  }

  lemma MeetFrontLedger(m: MatchState, p: Price, id: OrderId, policy: StpPolicy, base: seq<Trade>)
    requires Facing(m, p, id) && Ledger(Everyone(m), base + m.trades)
    ensures var after := MeetFront(m, p, id, policy);
            Ledger(Everyone(after), base + after.trades)
  {
    var r, after := m.book.orders[id], MeetFront(m, p, id, policy);
    if Conflict(policy, m.incoming.owner, r.owner) {
      if TakerYields(policy, m.incoming.remaining, r.remaining) {
        LedgerRestates(Everyone(m), base + m.trades, m.incoming.StpDecrement(m.incoming.remaining));
        assert Everyone(after) == Everyone(m)[m.incoming.id := m.incoming.StpDecrement(m.incoming.remaining)];
      } else {
        FacingHead(m, p, id);
        LedgerRestates(Everyone(m), base + m.trades, r.Cancel());
        assert Everyone(after) == Everyone(m)[id := r.Cancel()];
      }
    } else {
      TradeFrontLedger(m, p, id, base);
    }
  }

  lemma StepLedger(m: MatchState, policy: StpPolicy, base: seq<Trade>)
    requires MatchInv(m) && Ledger(Everyone(m), base + m.trades) && !m.done
    ensures var after := Step(m, policy);
            Ledger(Everyone(after), base + after.trades)
  {
    if m.at.None? || m.incoming.remaining == 0 || m.at.value !in Opposing(m).levels {
      LoopTurnKeeps(m, policy);
      var after := Step(m, policy);
      assert after.book == m.book && after.incoming == m.incoming && after.trades == m.trades;
    } else {
      var p := m.at.value;
      PurgingFaces(m, p);
      assert Everyone(Purged(m, p)) == Everyone(m);
      MeetFrontLedger(Purged(m, p), p, FrontId(Opposing(m).levels[p]).value, policy, base);
    }
  }

  lemma {:induction false} RunLedger(m: MatchState, policy: StpPolicy, base: seq<Trade>)
    requires MatchInv(m) && Safe(m, policy) && Ledger(Everyone(m), base + m.trades)
    ensures var end := Finish(m, policy);
            Ledger(Everyone(end), base + end.trades)
    decreases |m.book.LiveOn(m.incoming.side.Opposite())|, Rank(m)
  {
    FinishOfStep(m, policy);
    if !m.done {
      SafeStep(m, policy);
      StepLedger(m, policy, base);
      RunLedger(Step(m, policy), policy, base);
    }
  }

  // ---- commands keep the ledger ---------------------------------------------------

  ghost predicate Booked(ex: ExchangeState) {
    Ledger(ex.book.orders, ex.trades)
  }

  lemma MatchedLedger(ex: ExchangeState, s: Side, price: Price, quantity: nat, tif: TimeInForce, owner: Option<nat>)
    requires GoodExchange(ex) && Booked(ex)
    requires SubmitSafe(ex.book, s, price, quantity, owner, ex.policy)
    ensures var end := Matched(ex, s, price, quantity, tif, owner);
            Ledger(Everyone(end), ex.trades + end.trades)
  {
    var o := Incoming(ex.book, s, price, quantity, tif, owner);
    var m := Start(CreateOrder(ex.book, s, price, quantity, tif).0, o);
    Created(ex.book, s, price, quantity, tif, owner);
    LedgerRecords(ex.book.orders, ex.trades, o);
    assert ex.trades + m.trades == ex.trades;
    RunLedger(m, ex.policy, ex.trades);
  }

  lemma SubmitBooks(ex: ExchangeState, s: Side, price: Price, quantity: nat, tif: TimeInForce, owner: Option<nat>)
    requires GoodExchange(ex) && Booked(ex)
    requires SubmitSafe(ex.book, s, price, quantity, owner, ex.policy)
    ensures Booked(Submit(ex, s, price, quantity, tif, owner).0)
  {
    hide GoodBook, QuantityAtOrBetter, TrailingExact, Uncrossed, GoodExchange, Start, FokRejected, Reaches,
         IndexExact, Recorded, StopsBehind, GoodSide, Conflict, TakerYields, Live, NewOrder, StpSafe, SubmitSafe,
           Terminates, Finish, TradedBy;
    if !FokRejected(ex.book, s, price, quantity, tif) {
      var end := Matched(ex, s, price, quantity, tif, owner);
      MatchedLedger(ex, s, price, quantity, tif, owner);
      var next := Submit(ex, s, price, quantity, tif, owner).0;
      var stored := next.book.orders[end.incoming.id];
      LedgerRestates(Everyone(end), ex.trades + end.trades, stored);
      assert next.book.orders == Everyone(end)[end.incoming.id := stored];
    }
  }

  lemma SubmitStopBooks(ex: ExchangeState, o: StopOrder)
    requires GoodExchange(ex) && Booked(ex)
    ensures Booked(SubmitStop(ex, o).0)
  {
    var price := if o.limitPrice.Some? then o.limitPrice.value else MarketPrice(o.side);
    UntaggedIsSafe(ex.book, o.side, price, o.quantity, ex.policy);
    SubmitBooks(ex, o.side, price, o.quantity, if o.limitPrice.Some? then o.tif else IOC, None);
  }

  lemma {:induction false} SubmitStopsBooks(ex: ExchangeState, stops: seq<StopOrder>, newLast: Option<Price>)
    requires GoodExchange(ex) && Booked(ex)
    ensures Booked(SubmitStops(ex, stops, newLast).0)
    decreases |stops|
  {
    if stops != [] {
      SubmitStopKeeps(ex, stops[0]);
      SubmitStopBooks(ex, stops[0]);
      var (next, r) := SubmitStop(ex, stops[0]);
      SubmitStopsBooks(next, stops[1..], if r.trades == [] then newLast else LastPrice(r.trades));
    }
  }

  lemma RoundBooks(ex: ExchangeState)
    requires GoodExchange(ex) && Booked(ex) && ex.last.Some?
    ensures Booked(CascadeRound(ex).next)
  {
    FireAtKeeps(ex, ex.last.value);
    var (fired, hit) := FireAt(ex, ex.last.value);
    SubmitStopsBooks(fired, hit, None);
  }

  lemma CascadeBooks(ex: ExchangeState, n: nat)
    requires GoodExchange(ex) && Booked(ex) && ex.last.Some?
    ensures Booked(Cascade(ex, n))
  {
    var round := (e: ExchangeState) => CascadeRound(e);
    var inv := (e: ExchangeState) => GoodExchange(e) && Booked(e) && e.last.Some?;
    forall e | inv(e) ensures inv(round(e).next) {
      RoundKeeps(e);
      RoundBooks(e);
    }
    RoundsInvariant(round, inv, ex, n);
  }

  lemma AfterTradesBooks(ex: ExchangeState, trades: seq<Trade>)
    requires GoodExchange(ex) && Booked(ex)
    ensures Booked(AfterTrades(ex, trades))
  {
    if trades != [] {
      CascadeBooks(ex.(last := LastPrice(trades)), MAX_CASCADE_DEPTH);
    }
  }

  lemma SubmitAndFireBooks(ex: ExchangeState, s: Side, price: Price, quantity: nat, tif: TimeInForce,
                           owner: Option<nat>)
    requires GoodExchange(ex) && Booked(ex)
    requires SubmitSafe(ex.book, s, price, quantity, owner, ex.policy)
    ensures Booked(SubmitAndFire(ex, s, price, quantity, tif, owner).0)
  {
    SubmitKeeps(ex, s, price, quantity, tif, owner);
    SubmitBooks(ex, s, price, quantity, tif, owner);
    var (next, r) := Submit(ex, s, price, quantity, tif, owner);
    AfterTradesBooks(next, r.trades);
  }

  lemma CancelBooks(ex: ExchangeState, id: OrderId)
    requires GoodExchange(ex) && Booked(ex)
    ensures Booked(CancelInternal(ex, id).0)
    ensures Booked(ex.(book := CancelOrder(ex.book, id).0))
  {
    if id in ex.book.orders && ex.book.orders[id].IsActive() {
      LedgerRestates(ex.book.orders, ex.trades, ex.book.orders[id].Cancel());
    }
  }

  lemma ModifyBooks(ex: ExchangeState, id: OrderId, newPrice: Price, newQuantity: nat)
    requires GoodExchange(ex) && Booked(ex) && (newQuantity == 0 || CancelGuard(ex, id))
    ensures Booked(ModifyInternal(ex, id, newPrice, newQuantity).0)
  {
    if newQuantity != 0 && id in ex.book.orders && ex.book.orders[id].IsActive() {
      CancelBooks(ex, id);
      CancelBookKeeps(ex, id);
      var o, mid := ex.book.orders[id], ex.(book := CancelOrder(ex.book, id).0);
      UntaggedIsSafe(mid.book, o.side, newPrice, newQuantity, ex.policy);
      SubmitBooks(mid, o.side, newPrice, newQuantity, o.tif, None);
    }
  }

  lemma InsertStopBooks(ex: ExchangeState, s: Side, stopPrice: Price, limit: Option<Price>, quantity: nat,
                        tif: TimeInForce, trail: Option<TrailMethod>)
    requires GoodExchange(ex) && Booked(ex)
    ensures Booked(InsertStop(ex, s, stopPrice, limit, quantity, tif, trail).0)
  {
    var o := NewStop(ex.book, s, stopPrice, limit, quantity, tif, trail);
    PlaceStopKeeps(ex, o);
    if trail.None? && ex.last.Some? && Triggerable(o, ex.last.value) {
      CascadeBooks(PlaceStop(ex, o), MAX_CASCADE_DEPTH);
    }
  }

  lemma UntaggedSubmitBooks(ex: ExchangeState, s: Side, price: Price, quantity: nat, tif: TimeInForce)
    requires GoodExchange(ex) && Booked(ex)
    ensures Booked(SubmitAndFire(ex, s, price, quantity, tif, None).0)
  {
    UntaggedIsSafe(ex.book, s, price, quantity, ex.policy);
    SubmitAndFireBooks(ex, s, price, quantity, tif, None);
  }

  lemma PerformBooks(ex: ExchangeState, e: Event)
    requires GoodExchange(ex) && Booked(ex) && EventGuard(ex, e)
    ensures Booked(Perform(ex, e)) && Booked(Apply(ex, e))
  {
    var logged := Log(ex, e);
    LogKeeps(ex, e);
    match e
    case LimitEvent(s, price, quantity, tif) => UntaggedSubmitBooks(logged, s, price, quantity, tif);
    case MarketEvent(s, quantity) => UntaggedSubmitBooks(logged, s, MarketPrice(s), quantity, IOC);
    case CancelEvent(id) => CancelBooks(logged, id);
    case ModifyEvent(id, newPrice, newQuantity) =>
      ModifyKeeps(logged, id, newPrice, newQuantity);
      ModifyBooks(logged, id, newPrice, newQuantity);
      var (next, r) := ModifyInternal(logged, id, newPrice, newQuantity);
      AfterTradesBooks(next, ModifyTrades(r));
    case StopMarketEvent(s, stop, quantity) => InsertStopBooks(logged, s, stop, None, quantity, GTC, None);
    case StopLimitEvent(s, stop, limit, quantity, tif) =>
      InsertStopBooks(logged, s, stop, Some(limit), quantity, tif, None);
    case TrailingMarketEvent(s, stop, quantity, trail) =>
      InsertStopBooks(logged, s, stop, None, quantity, GTC, Some(trail));
    case TrailingLimitEvent(s, stop, limit, quantity, tif, trail) =>
      InsertStopBooks(logged, s, stop, Some(limit), quantity, tif, Some(trail));
  }

  predicate KeepsHistory(c: Command) {
    !c.ClearOrders? && !c.ClearTrades?
  }

  lemma DoBooks(ex: ExchangeState, c: Command)
    requires GoodExchange(ex) && Booked(ex) && Guard(ex, c) && KeepsHistory(c)
    ensures Booked(Do(ex, c))
  {
    match c
    case Public(e) => PerformBooks(ex, e);
    case ReplayOne(e) => PerformBooks(ex, e);
    case TaggedLimit(s, price, quantity, tif, owner) =>
      LogKeeps(ex, LimitEvent(s, price, quantity, tif));
      SubmitAndFireBooks(Log(ex, LimitEvent(s, price, quantity, tif)), s, price, quantity, tif, Some(owner));
    case _ =>
  }

  lemma {:induction false} RunBooks(ex: ExchangeState, cs: seq<Command>)
    requires GoodExchange(ex) && Booked(ex) && Guarded(ex, cs)
    requires forall c | c in cs :: KeepsHistory(c)
    ensures Booked(Run(ex, cs))
    decreases |cs|
  {
    if cs != [] {
      assert cs[0] in cs;
      DoKeeps(ex, cs[0]);
      DoBooks(ex, cs[0]);
      RunBooks(Do(ex, cs[0]), cs[1..]);
    }
  }

  // ---- both sides of every trade ---------------------------------------------------

  // What orders of side `s` with ids below `n` have filled.
  function FilledOn(orders: OrderMap, s: Side, n: nat): nat {
    if n == 0 then 0
    else FilledOn(orders, s, n - 1) +
         (if n - 1 in orders && orders[n - 1].side == s then orders[n - 1].filled else 0)
  }

  // The same, counted from the trade log.
  function LoggedOn(orders: OrderMap, trades: seq<Trade>, s: Side, n: nat): nat {
    if n == 0 then 0
    else LoggedOn(orders, trades, s, n - 1) +
         (if n - 1 in orders && orders[n - 1].side == s then TradedBy(trades, n - 1) else 0)
  }

  lemma {:induction false} FilledIsLogged(orders: OrderMap, trades: seq<Trade>, s: Side, n: nat)
    requires Ledger(orders, trades)
    ensures FilledOn(orders, s, n) == LoggedOn(orders, trades, s, n)
  {
    if n > 0 {
      FilledIsLogged(orders, trades, s, n - 1);
    }
  }

  // The order of side `s` in a trade.
  function PartyOn(t: Trade, s: Side): OrderId {
    if t.aggressorSide == s then t.aggressor else t.passive
  }

  lemma {:induction false} OneTradeLogged(orders: OrderMap, trades: seq<Trade>, t: Trade, s: Side, n: nat)
    requires Recorded(t, orders)
    ensures LoggedOn(orders, trades + [t], s, n) ==
            LoggedOn(orders, trades, s, n) + (if PartyOn(t, s) < n then t.quantity else 0)
  {
    if n > 0 {
      OneTradeLogged(orders, trades, t, s, n - 1);
      var log := trades + [t];
      assert log[..|log| - 1] == trades && log[|log| - 1] == t;
    }
  }

  lemma {:induction false} LogBalances(orders: OrderMap, trades: seq<Trade>, s: Side, n: nat)
    requires forall t | t in trades :: Recorded(t, orders)
    requires forall id | id in orders :: id < n
    ensures LoggedOn(orders, trades, s, n) == TradedVolume(trades)
  {
    if trades == [] {
      NothingLogged(orders, s, n);
    } else {
      var before, t := trades[..|trades| - 1], trades[|trades| - 1];
      assert trades == before + [t];
      LogBalances(orders, before, s, n);
      assert Recorded(t, orders);
      OneTradeLogged(orders, before, t, s, n);
    }
  }

  lemma {:induction false} NothingLogged(orders: OrderMap, s: Side, n: nat)
    ensures LoggedOn(orders, [], s, n) == 0
  {
    if n > 0 {
      NothingLogged(orders, s, n - 1);
    }
  }

  /** Over any guarded run that clears no history, every order's filled quantity is what
      the trade log says about it, and bought equals sold equals traded. */
  lemma RunConserves(cs: seq<Command>)
    requires Guarded(NewExchange(), cs)
    requires forall c | c in cs :: KeepsHistory(c)
    ensures var ex := Run(NewExchange(), cs);
            var n := ex.book.nextOrderId;
            && (forall id | id in ex.book.orders ::
                  ex.book.orders[id].filled == TradedBy(ex.trades, id) && ex.book.orders[id].Balanced())
            && FilledOn(ex.book.orders, Buy, n) == TradedVolume(ex.trades)
            && FilledOn(ex.book.orders, Sell, n) == TradedVolume(ex.trades)
  {
    NewExchangeIsGood();
    RunKeeps(NewExchange(), cs);
    RunBooks(NewExchange(), cs);
    var ex := Run(NewExchange(), cs);
    var n := ex.book.nextOrderId;
    FilledIsLogged(ex.book.orders, ex.trades, Buy, n);
    FilledIsLogged(ex.book.orders, ex.trades, Sell, n);
    LogBalances(ex.book.orders, ex.trades, Buy, n);
    LogBalances(ex.book.orders, ex.trades, Sell, n);
  }

  /** Whatever the time in force and policy, a submission accounts for all it was given. */
  lemma SubmitConserves(ex: ExchangeState, s: Side, price: Price, quantity: nat, tif: TimeInForce, owner: Option<nat>)
    requires GoodExchange(ex)
    requires SubmitSafe(ex.book, s, price, quantity, owner, ex.policy)
    ensures var r := Submit(ex, s, price, quantity, tif, owner).1;
            r.filled + r.resting + r.cancelled == quantity && r.cancelled >= 0
  {
    SubmitIsNaive(ex, s, price, quantity, tif, owner);
    GreedyConserves(View(ex.book).On(s.Opposite()), Taker(s, price, quantity, owner), ex.policy);
  }
}
