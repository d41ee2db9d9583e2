/** Over whole runs the exchange is the naive one. */
module NaiveRuns {
  import opened Types
  import opened PriceKeys
  import opened OrderModel
  import opened SideModel
  import opened BookModel
  import opened PriceTime
  import opened Matching
  import opened Liquidity
  import opened StopModel
  import opened StopTriggers
  import opened StopTrailing
  import opened ExchangeModel
  import opened Submission
  import opened ExchangeSafety
  import opened ExchangeRuns
  import opened Guarantees
  import opened NaiveExchange

  // ---- only good-til-cancelled orders rest ----------------------------------------

  ghost predicate GtcOnly(b: BookState) {
    forall s: Side, r | r in b.LiveOn(s) :: r.id in b.orders && b.orders[r.id].tif.GTC?
  }

  lemma {:induction false} GreedyKeepsIds(live: seq<Resting>, t: Taker, policy: StpPolicy)
    ensures forall r | r in Greedy(live, t, policy).book :: Lists(live, r.id)
  {
    forall r | r in live ensures Lists(live, r.id) {
    }
    if Reaches(live, t) {
      var h, rest := live[0], live[1..];
      if Conflict(policy, t.owner, h.owner) {
        GreedyKeepsIds(rest, t, policy);
        SuffixLists(live);
      } else if t.left >= h.quantity {
        GreedyKeepsIds(rest, t.(left := t.left - h.quantity), policy);
        SuffixLists(live);
      } else {
        assert h in live;
      }
    }
  }

  lemma SuffixLists(live: seq<Resting>)
    requires live != []
    ensures forall id | Lists(live[1..], id) :: Lists(live, id)
  {
    forall id | Lists(live[1..], id) ensures Lists(live, id) {
      var r :| r in live[1..] && r.id == id;
      assert r in live;
    }
  }

  lemma {:induction false} InsertMembers(s: Side, live: seq<Resting>, r: Resting)
    ensures forall x :: x in InsertByPriority(s, live, r) <==> x == r || x in live
  {
    if live == [] || Better(s, r.price, live[0].price) {
    } else {
      InsertMembers(s, live[1..], r);
      assert live == [live[0]] + live[1..];
    }
  }

  // Everything a submission leaves on the lists was there before, or is the order itself.
  lemma SubmitLists(nb: NaiveBook, id: OrderId, s: Side, price: Price, quantity: nat, tif: TimeInForce,
                    owner: Option<nat>, policy: StpPolicy, side: Side)
    ensures var n := SubmitNaively(nb, id, s, price, quantity, tif, owner, policy);
            forall r | r in n.book.On(side) :: Lists(nb.On(side), r.id) || (r.id == id && tif.GTC?)
  {
    var t := Taker(s, price, quantity, owner);
    var g := Greedy(nb.On(s.Opposite()), t, policy);
    GreedyKeepsIds(nb.On(s.Opposite()), t, policy);
    InsertMembers(s, nb.On(s), Resting(id, price, g.left, owner));
  }

  // A submission keeps every order's time in force and records its own.
  lemma SubmitKeepsTif(ex: ExchangeState, s: Side, price: Price, quantity: nat, tif: TimeInForce, owner: Option<nat>)
    requires GoodExchange(ex)
    requires SubmitSafe(ex.book, s, price, quantity, owner, ex.policy)
    ensures var (next, r) := Submit(ex, s, price, quantity, tif, owner);
            && (forall id | id in ex.book.orders ::
                  id in next.book.orders && next.book.orders[id].tif == ex.book.orders[id].tif)
            && (r.orderId in next.book.orders ==> next.book.orders[r.orderId].tif == tif)
  {
    if !FokRejected(ex.book, s, price, quantity, tif) {
      MatchedAgrees(ex, s, price, quantity, tif, owner);
    }
  }

  lemma ListedIsGtc(b: BookState, s: Side, id: OrderId)
    requires GtcOnly(b) && Lists(b.LiveOn(s), id)
    ensures id in b.orders && b.orders[id].tif.GTC?
  {
  }

  lemma SubmitGtc(ex: ExchangeState, s: Side, price: Price, quantity: nat, tif: TimeInForce, owner: Option<nat>)
    requires GoodExchange(ex) && GtcOnly(ex.book)
    requires SubmitSafe(ex.book, s, price, quantity, owner, ex.policy)
    ensures GtcOnly(Submit(ex, s, price, quantity, tif, owner).0.book)
  {
    var (next, r) := Submit(ex, s, price, quantity, tif, owner);
    SubmitIsNaive(ex, s, price, quantity, tif, owner);
    SubmitKeepsTif(ex, s, price, quantity, tif, owner);
    forall side: Side, x | x in next.book.LiveOn(side)
      ensures x.id in next.book.orders && next.book.orders[x.id].tif.GTC?
    {
      SubmitLists(View(ex.book), ex.book.nextOrderId, s, price, quantity, tif, owner, ex.policy, side);
      ShownSide(next.book, side, x);
      if Lists(View(ex.book).On(side), x.id) {
        ListedIsGtc(ex.book, side, x.id);
      }
    }
  }

  lemma {:induction false} SubmitStopsGtc(ex: ExchangeState, stops: seq<StopOrder>, newLast: Option<Price>)
    requires GoodExchange(ex) && GtcOnly(ex.book)
    ensures GtcOnly(SubmitStops(ex, stops, newLast).0.book)
    decreases |stops|
  {
    if stops != [] {
      var o := stops[0];
      var price := if o.limitPrice.Some? then o.limitPrice.value else MarketPrice(o.side);
      UntaggedIsSafe(ex.book, o.side, price, o.quantity, ex.policy);
      SubmitGtc(ex, o.side, price, o.quantity, if o.limitPrice.Some? then o.tif else IOC, None);
      SubmitStopKeeps(ex, o);
      var (next, r) := SubmitStop(ex, o);
      SubmitStopsGtc(next, stops[1..], if r.trades == [] then newLast else LastPrice(r.trades));
    }
  }

  lemma RoundGtc(ex: ExchangeState)
    requires GoodExchange(ex) && GtcOnly(ex.book)
    ensures GtcOnly(CascadeRound(ex).next.book)
  {
    if ex.last.Some? {
      FireAtKeeps(ex, ex.last.value);
      SubmitStopsGtc(FireAt(ex, ex.last.value).0, FireAt(ex, ex.last.value).1, None);
    }
  }

  lemma CascadeGtc(ex: ExchangeState)
    requires GoodExchange(ex) && GtcOnly(ex.book) && ex.last.Some?
    ensures GtcOnly(ProcessTradeTriggers(ex).book)
  {
    var round := (e: ExchangeState) => CascadeRound(e);
    var inv := (e: ExchangeState) => GoodExchange(e) && e.last.Some? && GtcOnly(e.book);
    forall e | inv(e) ensures inv(round(e).next) {
      RoundKeeps(e);
      RoundGtc(e);
    }
    RoundsInvariant(round, inv, ex, MAX_CASCADE_DEPTH);
  }

  // ---- one command ------------------------------------------------------------------

  ghost predicate Refinable(ex: ExchangeState) {
    GoodExchange(ex) && GtcOnly(ex.book)
  }

  lemma ProcessRefines(ex: ExchangeState)
    requires Refinable(ex) && ex.last.Some?
    ensures Refinable(ProcessTradeTriggers(ex))
    ensures Abstract(ProcessTradeTriggers(ex)) == NaiveCascade(Abstract(ex))
  {
    CascadeQuiets(ex, MAX_CASCADE_DEPTH);
    CascadeGtc(ex);
    CascadeRefines(ex);
  }

  lemma AfterTradesRefines(ex: ExchangeState, trades: seq<Trade>)
    requires Refinable(ex)
    ensures Refinable(AfterTrades(ex, trades))
    ensures Abstract(AfterTrades(ex, trades)) == NaiveAfterTrades(Abstract(ex), trades)
  {
    if trades != [] {
      ProcessRefines(ex.(last := LastPrice(trades)));
    }
  }

  lemma SubmitAndFireRefines(ex: ExchangeState, s: Side, price: Price, quantity: nat, tif: TimeInForce,
                             owner: Option<nat>)
    requires Refinable(ex)
    requires SubmitSafe(ex.book, s, price, quantity, owner, ex.policy)
    ensures var next := SubmitAndFire(ex, s, price, quantity, tif, owner).0;
            Refinable(next) && Abstract(next) == NaiveSubmitAndFire(Abstract(ex), s, price, quantity, tif, owner)
  {
    SubmitKeeps(ex, s, price, quantity, tif, owner);
    SubmitGtc(ex, s, price, quantity, tif, owner);
    SubmitRefines(ex, s, price, quantity, tif, owner);
    AfterTradesRefines(Submit(ex, s, price, quantity, tif, owner).0,
                       Submit(ex, s, price, quantity, tif, owner).1.trades);
  }

  lemma UntaggedRefines(ex: ExchangeState, s: Side, price: Price, quantity: nat, tif: TimeInForce)
    requires Refinable(ex)
    ensures var next := SubmitAndFire(ex, s, price, quantity, tif, None).0;
            Refinable(next) && Abstract(next) == NaiveSubmitAndFire(Abstract(ex), s, price, quantity, tif, None)
  {
    UntaggedIsSafe(ex.book, s, price, quantity, ex.policy);
    SubmitAndFireRefines(ex, s, price, quantity, tif, None);
  }

  lemma UnlistedWithout(b: BookState, s: Side, id: OrderId)
    requires GoodBook(b)
    requires id in b.orders ==> b.orders[id].side != s || !b.orders[id].IsActive()
    ensures !Lists(b.LiveOn(s), id) && Without(b.LiveOn(s), id) == b.LiveOn(s)
  {
    forall r | r in b.LiveOn(s) ensures r.id != id {
      ShownSide(b, s, r);
    }
    WithoutAbsent(b.LiveOn(s), id);
  }

  lemma BookCancelRefines(b: BookState, id: OrderId)
    requires GoodBook(b) && GtcOnly(b)
    requires id in b.orders && b.orders[id].IsActive() && CancelSafe(b, id)
    ensures View(CancelOrder(b, id).0) == NaiveRemove(View(b), id)
    ensures GtcOnly(CancelOrder(b, id).0)
  {
    SafeCancelWorks(b, id);
    var s := b.orders[id].side;
    UnlistedWithout(b, s.Opposite(), id);
    WithoutGone(b.LiveOn(s), id);
    var after := CancelOrder(b, id).0;
    forall side: Side, r | r in after.LiveOn(side) ensures r.id in after.orders && after.orders[r.id].tif.GTC? {
      assert r in b.LiveOn(side);
    }
  }

  lemma CancelRefines(ex: ExchangeState, id: OrderId)
    requires Refinable(ex) && CancelGuard(ex, id)
    ensures var next := CancelInternal(ex, id).0;
            Refinable(next) && Abstract(next) == NaiveCancel(Abstract(ex), id)
  {
    CancelKeeps(ex, id);
    if !IsPending(ex.stops.orders, id) {
      if id in ex.book.orders && ex.book.orders[id].IsActive() {
        BookCancelRefines(ex.book, id);
      } else {
        UnlistedWithout(ex.book, Buy, id);
        UnlistedWithout(ex.book, Sell, id);
      }
    }
  }

  // A modify addresses an order that rests, or one that is no longer active.
  predicate ModifyGuard(ex: ExchangeState, id: OrderId, newQuantity: nat) {
    newQuantity == 0 || id !in ex.book.orders || !ex.book.orders[id].IsActive() ||
    (IsQueued(ex.book, ex.book.orders[id]) && CancelSafe(ex.book, id))
  }

  lemma ModifyRefines(ex: ExchangeState, id: OrderId, newPrice: Price, newQuantity: nat)
    requires Refinable(ex) && ModifyGuard(ex, id, newQuantity)
    ensures var (next, r) := ModifyInternal(ex, id, newPrice, newQuantity);
            && Refinable(next)
            && (Abstract(next), ModifyTrades(r)) == NaiveModify(Abstract(ex), id, newPrice, newQuantity)
  {
    if newQuantity == 0 {
    } else if id !in ex.book.orders || !ex.book.orders[id].IsActive() {
      UnlistedWithout(ex.book, Buy, id);
      UnlistedWithout(ex.book, Sell, id);
    } else {
      var o := ex.book.orders[id];
      QueuedIsListed(ex.book, id);
      UnlistedWithout(ex.book, o.side.Opposite(), id);
      BookCancelRefines(ex.book, id);
      CancelBookKeeps(ex, id);
      var mid := ex.(book := CancelOrder(ex.book, id).0);
      UntaggedIsSafe(mid.book, o.side, newPrice, newQuantity, ex.policy);
      SubmitKeeps(mid, o.side, newPrice, newQuantity, o.tif, None);
      SubmitGtc(mid, o.side, newPrice, newQuantity, o.tif, None);
      SubmitRefines(mid, o.side, newPrice, newQuantity, o.tif, None);
      ListedIsGtc(ex.book, o.side, id);
    }
  }

  lemma QueuedIsListed(b: BookState, id: OrderId)
    requires GoodBook(b) && id in b.orders && IsQueued(b, b.orders[id])
    ensures Lists(b.LiveOn(b.orders[id].side), id)
  {
    var o := b.orders[id];
    LiveIsPriceTimeOrder(b.SideOf(o.side), o.side, b.orders);
    assert RestingOf(o) in b.LiveOn(o.side);
  }

  // Good-til-cancelled resting depends on the lists and the recorded times in force only.
  lemma SameListsGtc(b: BookState, after: BookState)
    requires GtcOnly(b)
    requires View(after) == View(b)
    requires forall s: Side, r | r in after.LiveOn(s) ::
               r.id in after.orders && (r.id in b.orders ==> after.orders[r.id].tif == b.orders[r.id].tif)
    ensures GtcOnly(after)
  {
    forall s: Side, r | r in after.LiveOn(s) ensures r.id in after.orders && after.orders[r.id].tif.GTC? {
      assert View(after).On(s) == View(b).On(s);
      assert r in b.LiveOn(s);
    }
  }

  lemma PlaceRefines(ex: ExchangeState, o: StopOrder)
    requires Refinable(ex)
    requires o.id == ex.book.nextOrderId && o.timestamp == ex.book.nextTimestamp && o.status.Pending?
    ensures Refinable(PlaceStop(ex, o))
    ensures Abstract(PlaceStop(ex, o)) == NaivePlace(Abstract(ex), o)
  {
    PlaceStopKeeps(ex, o);
    SameListsGtc(ex.book, PlaceStop(ex, o).book);
  }

  lemma InsertStopRefines(ex: ExchangeState, s: Side, stopPrice: Price, limit: Option<Price>, quantity: nat,
                          tif: TimeInForce, trail: Option<TrailMethod>)
    requires Refinable(ex)
    ensures var next := InsertStop(ex, s, stopPrice, limit, quantity, tif, trail).0;
            && Refinable(next)
            && Abstract(next) == NaiveInsertStop(Abstract(ex), s, stopPrice, limit, quantity, tif, trail)
  {
    var o := NewStop(ex.book, s, stopPrice, limit, quantity, tif, trail);
    PlaceRefines(ex, o);
    if trail.None? && ex.last.Some? && Triggerable(o, ex.last.value) {
      ProcessRefines(PlaceStop(ex, o));
    }
  }

  ghost predicate RefineGuard(ex: ExchangeState, c: Command) {
    match c
    case Public(ModifyEvent(id, newPrice, newQuantity)) => ModifyGuard(ex, id, newQuantity)
    case ReplayOne(ModifyEvent(id, newPrice, newQuantity)) => ModifyGuard(ex, id, newQuantity)
    case _ => Guard(ex, c)
  }

  lemma EventRefines(ex: ExchangeState, e: Event)
    requires Refinable(ex) && RefineGuard(ex, Public(e))
    ensures Refinable(Perform(ex, e)) && Abstract(Perform(ex, e)) == NaiveEvent(Abstract(ex), e, false)
    ensures Refinable(Apply(ex, e)) && Abstract(Apply(ex, e)) == NaiveEvent(Abstract(ex), e, true)
  {
    var logged := Log(ex, e);
    match e
    case LimitEvent(s, price, quantity, tif) => UntaggedRefines(logged, s, price, quantity, tif);
    case MarketEvent(s, quantity) => UntaggedRefines(logged, s, MarketPrice(s), quantity, IOC);
    case CancelEvent(id) => CancelRefines(logged, id);
    case ModifyEvent(id, newPrice, newQuantity) =>
      ModifyRefines(logged, id, newPrice, newQuantity);
      AfterTradesRefines(ModifyInternal(logged, id, newPrice, newQuantity).0,
                         ModifyTrades(ModifyInternal(logged, id, newPrice, newQuantity).1));
    case StopMarketEvent(s, stop, quantity) => InsertStopRefines(logged, s, stop, None, quantity, GTC, None);
    case StopLimitEvent(s, stop, limit, quantity, tif) =>
      InsertStopRefines(logged, s, stop, Some(limit), quantity, tif, None);
    case TrailingMarketEvent(s, stop, quantity, trail) =>
      InsertStopRefines(logged, s, stop, None, quantity, GTC, Some(trail));
    case TrailingLimitEvent(s, stop, limit, quantity, tif, trail) =>
      InsertStopRefines(logged, s, stop, Some(limit), quantity, tif, Some(trail));
  }

  lemma CompactRefines(ex: ExchangeState)
    requires Refinable(ex)
    ensures Refinable(Do(ex, CompactBooks)) && Abstract(Do(ex, CompactBooks)) == Abstract(ex)
  {
    CompactKeeps(ex);
    SameListsGtc(ex.book, CompactBook(ex.book));
  }

  lemma ClearGtc(b: BookState)
    requires GtcOnly(b) && GoodBook(ClearHistory(b)) && View(ClearHistory(b)) == View(b)
    ensures GtcOnly(ClearHistory(b))
  {
    var clear := ClearHistory(b);
    forall s: Side, r | r in clear.LiveOn(s) ensures r.id in clear.orders {
      ShownSide(clear, s, r);
    }
    SameListsGtc(b, clear);
  }

  lemma ClearRefines(ex: ExchangeState)
    requires Refinable(ex)
    ensures Refinable(Do(ex, ClearOrders)) && Abstract(Do(ex, ClearOrders)) == NaiveDo(Abstract(ex), ClearOrders)
  {
    ClearOrdersKeeps(ex);
    ClearGtc(ex.book);
  }

  lemma DoRefines(ex: ExchangeState, c: Command)
    requires Refinable(ex) && RefineGuard(ex, c)
    ensures Refinable(Do(ex, c)) && Abstract(Do(ex, c)) == NaiveDo(Abstract(ex), c)
  {
    match c
    case Public(e) => EventRefines(ex, e);
    case ReplayOne(e) => EventRefines(ex, e);
    case TaggedLimit(s, price, quantity, tif, owner) =>
      SubmitAndFireRefines(Log(ex, LimitEvent(s, price, quantity, tif)), s, price, quantity, tif, Some(owner));
    case CompactBooks => CompactRefines(ex);
    case ClearOrders => ClearRefines(ex);
    case _ =>
  }

  ghost predicate RefineGuarded(ex: ExchangeState, cs: seq<Command>)
    decreases |cs|
  {
    cs == [] || (RefineGuard(ex, cs[0]) && RefineGuarded(Do(ex, cs[0]), cs[1..]))
  }

  lemma {:induction false} RunRefines(ex: ExchangeState, cs: seq<Command>)
    requires Refinable(ex) && RefineGuarded(ex, cs)
    ensures Abstract(Run(ex, cs)) == NaiveRun(Abstract(ex), cs)
    decreases |cs|
  {
    if cs != [] {
      DoRefines(ex, cs[0]);
      RunRefines(Do(ex, cs[0]), cs[1..]);
    }
  }

  /** Every guarded run, cascades, modifies and housekeeping included, shows exactly the
      lists, trades, stops and prices the naive exchange shows. */
  lemma ExchangeIsNaive(cs: seq<Command>)
    requires RefineGuarded(NewExchange(), cs)
    ensures Abstract(Run(NewExchange(), cs)) == NaiveRun(Abstract(NewExchange()), cs)
    ensures Abstract(NewExchange()) == NaiveState(NaiveBook([], []), [], map[], [], None, None, Off, 1, 1, 1)
  {
    NewExchangeIsGood();
    NewBookIsGood();
    forall s: Side ensures NewBook().LiveOn(s) == [] {
      assert View(NewBook()).On(s) == [];
    }
    RunRefines(NewExchange(), cs);
  }
}
