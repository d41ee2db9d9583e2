/** The last price is the price of the newest trade, over whole runs and inside a cascade. */
module LastTrade {
  import opened Types
  import opened OrderModel
  import opened BookModel
  import opened PriceTime
  import opened Matching
  import opened Liquidity
  import opened StopModel
  import opened ExchangeModel
  import opened Submission
  import opened ExchangeSafety
  import opened ExchangeRuns
  import opened Guarantees
  import opened Dormant
  import opened ReplayFidelity

  // Whoever has trades on record knows the price of the newest.
  predicate Told(ex: ExchangeState) {
    ex.trades != [] ==> ex.last == Some(ex.trades[|ex.trades| - 1].price)
  }

  // `last` after trading from `before` on to `after`: the newest trade's price, if there was any.
  predicate Tells(before: seq<Trade>, after: seq<Trade>, was: Option<Price>, last: Option<Price>) {
    before <= after && last == if after == before then was else Some(after[|after| - 1].price)
  }

  lemma TellsAppended(before: seq<Trade>, trades: seq<Trade>, was: Option<Price>)
    ensures Tells(before, before + trades, was, if trades == [] then was else LastPrice(trades))
  {
    assert trades == [] ==> before + trades == before;
  }

  lemma TellsOn(a: seq<Trade>, b: seq<Trade>, c: seq<Trade>, x: Option<Price>, y: Option<Price>, z: Option<Price>)
    requires Tells(a, b, x, y) && Tells(b, c, y, z)
    ensures Tells(a, c, x, z)
  {
  }

  lemma {:induction false} SubmitStopsTell(ex: ExchangeState, stops: seq<StopOrder>, was: Option<Price>)
    requires GoodExchange(ex)
    ensures var (next, last) := SubmitStops(ex, stops, was);
            Tells(ex.trades, next.trades, was, last)
    decreases |stops|
  {
    hide GoodExchange, SubmitStop, LastPrice, Tells;
    if stops == [] {
      assert Tells(ex.trades, ex.trades + [], was, was) by {
        TellsAppended(ex.trades, [], was);
      }
      assert ex.trades + [] == ex.trades;
    } else {
      SubmitStopKeeps(ex, stops[0]);
      var (next, r) := SubmitStop(ex, stops[0]);
      var mid := if r.trades == [] then was else LastPrice(r.trades);
      TellsAppended(ex.trades, r.trades, was);
      SubmitStopsTell(next, stops[1..], mid);
      var (end, last) := SubmitStops(next, stops[1..], mid);
      TellsOn(ex.trades, next.trades, end.trades, was, mid, last);
    }
  }

  lemma RoundTells(ex: ExchangeState)
    requires GoodExchange(ex) && ex.last.Some? && Told(ex)
    ensures Told(CascadeRound(ex).next)
  {
    hide GoodExchange, FireAt, SubmitStops;
    FireAtKeeps(ex, ex.last.value);
    var (fired, hit) := FireAt(ex, ex.last.value);
    SubmitStopsKeeps(fired, hit, None);
    SubmitStopsTell(fired, hit, None);
  }

  lemma CascadeTells(ex: ExchangeState, n: nat)
    requires GoodExchange(ex) && ex.last.Some? && Told(ex)
    ensures Told(Cascade(ex, n))
  {
    hide GoodExchange, CascadeRound;
    var round := (e: ExchangeState) => CascadeRound(e);
    var inv := (e: ExchangeState) => GoodExchange(e) && e.last.Some? && Told(e);
    forall e | inv(e) ensures inv(round(e).next) {
      RoundKeeps(e);
      RoundTells(e);
    }
    RoundsInvariant(round, inv, ex, n);
  }

  lemma AfterTradesTells(ex: ExchangeState, trades: seq<Trade>)
    requires GoodExchange(ex)
    requires if trades == [] then Told(ex) else
               |trades| <= |ex.trades| && ex.trades[|ex.trades| - 1] == trades[|trades| - 1]
    ensures Told(AfterTrades(ex, trades))
  {
    hide GoodExchange, Cascade;
    if trades != [] {
      RepricedIsGood(ex, LastPrice(trades));
      CascadeTells(ex.(last := LastPrice(trades)), MAX_CASCADE_DEPTH);
    }
  }

  lemma SubmitTells(ex: ExchangeState, s: Side, price: Price, quantity: nat, tif: TimeInForce, owner: Option<nat>)
    requires GoodExchange(ex) && Told(ex) && SubmitSafe(ex.book, s, price, quantity, owner, ex.policy)
    ensures Told(SubmitAndFire(ex, s, price, quantity, tif, owner).0)
  {
    hide GoodExchange, Submit, SubmitSafe, AfterTrades;
    SubmitKeeps(ex, s, price, quantity, tif, owner);
    var (next, r) := Submit(ex, s, price, quantity, tif, owner);
    assert r.trades == [] ==> ex.trades + r.trades == ex.trades;
    AfterTradesTells(next, r.trades);
  }

  // A modify adds the replacement's trades and leaves the last price alone.
  lemma ModifyAppends(ex: ExchangeState, id: OrderId, newPrice: Price, newQuantity: nat)
    requires GoodExchange(ex) && (newQuantity == 0 || CancelGuard(ex, id))
    ensures var (next, r) := ModifyInternal(ex, id, newPrice, newQuantity);
            next.trades == ex.trades + ModifyTrades(r) && next.last == ex.last
  {
    hide Submit;
    assert ex.trades + [] == ex.trades;
    if newQuantity != 0 && id in ex.book.orders && ex.book.orders[id].IsActive() {
      CancelBookKeeps(ex, id);
      var o, mid := ex.book.orders[id], ex.(book := CancelOrder(ex.book, id).0);
      UntaggedIsSafe(mid.book, o.side, newPrice, newQuantity, ex.policy);
      SubmitKeeps(mid, o.side, newPrice, newQuantity, o.tif, None);
    }
  }

  lemma InsertStopTells(ex: ExchangeState, s: Side, stopPrice: Price, limit: Option<Price>, quantity: nat,
                        tif: TimeInForce, trail: Option<TrailMethod>)
    requires GoodExchange(ex) && Told(ex)
    ensures Told(InsertStop(ex, s, stopPrice, limit, quantity, tif, trail).0)
  {
    hide GoodExchange, Cascade;
    var o := NewStop(ex.book, s, stopPrice, limit, quantity, tif, trail);
    PlaceStopKeeps(ex, o);
    if ex.last.Some? {
      CascadeTells(PlaceStop(ex, o), MAX_CASCADE_DEPTH);
    }
  }

  lemma CancelTells(ex: ExchangeState, id: OrderId)
    requires Told(ex)
    ensures Told(CancelInternal(ex, id).0)
  {
  }

  lemma EventTells(ex: ExchangeState, e: Event)
    requires GoodExchange(ex) && Told(ex) && EventGuard(ex, e)
    ensures Told(Apply(ex, e))
    ensures !CrossingModify(ex, e) ==> Told(Perform(ex, e))
  {
    hide GoodExchange, CrossingModify, SubmitAndFire, AfterTrades, InsertStop, CancelInternal, ModifyInternal;
    var logged := Log(ex, e);
    LogKeeps(ex, e);
    match e {
      case LimitEvent(s, price, quantity, tif) =>
        UntaggedIsSafe(logged.book, s, price, quantity, logged.policy);
        SubmitTells(logged, s, price, quantity, tif, None);
        FiringIs(logged, s, price, quantity, tif);
      case MarketEvent(s, quantity) =>
        UntaggedIsSafe(logged.book, s, MarketPrice(s), quantity, logged.policy);
        SubmitTells(logged, s, MarketPrice(s), quantity, IOC, None);
        FiringIs(logged, s, MarketPrice(s), quantity, IOC);
      case CancelEvent(id) =>
        CancelTells(logged, id);
      case ModifyEvent(id, newPrice, newQuantity) =>
        ModifyKeeps(logged, id, newPrice, newQuantity);
        ModifyAppends(logged, id, newPrice, newQuantity);
        TradesIffCrosses(ex, e);
        var (next, r) := ModifyInternal(logged, id, newPrice, newQuantity);
        assert ModifyTrades(r) == [] ==> logged.trades + ModifyTrades(r) == logged.trades;
        AfterTradesTells(next, ModifyTrades(r));
      case StopMarketEvent(s, stop, quantity) => InsertStopTells(logged, s, stop, None, quantity, GTC, None);
      case StopLimitEvent(s, stop, limit, quantity, tif) =>
        InsertStopTells(logged, s, stop, Some(limit), quantity, tif, None);
      case TrailingMarketEvent(s, stop, quantity, trail) =>
        InsertStopTells(logged, s, stop, None, quantity, GTC, Some(trail));
      case TrailingLimitEvent(s, stop, limit, quantity, tif, trail) =>
        InsertStopTells(logged, s, stop, Some(limit), quantity, tif, Some(trail));
    }
  }

  lemma FiringIs(ex: ExchangeState, s: Side, price: Price, quantity: nat, tif: TimeInForce)
    ensures var (next, r) := Submit(ex, s, price, quantity, tif, None);
            SubmitAndFire(ex, s, price, quantity, tif, None).0 == AfterTrades(next, r.trades)
  {
  }

  // ---- whole runs --------------------------------------------------------------------

  // The public modify is the one command that trades and does not say so.
  ghost predicate Silent(ex: ExchangeState, c: Command) {
    c.Public? && CrossingModify(ex, c.event)
  }

  ghost predicate NeverSilent(ex: ExchangeState, cs: seq<Command>)
    decreases |cs|
  {
    cs == [] || (!Silent(ex, cs[0]) && NeverSilent(Do(ex, cs[0]), cs[1..]))
  }

  lemma DoTells(ex: ExchangeState, c: Command)
    requires GoodExchange(ex) && Told(ex) && Guard(ex, c) && !Silent(ex, c)
    ensures Told(Do(ex, c))
  {
    hide GoodExchange, CrossingModify, Perform, Apply, SubmitAndFire;
    match c
    case Public(e) => EventTells(ex, e);
    case ReplayOne(e) => EventTells(ex, e);
    case TaggedLimit(s, price, quantity, tif, owner) =>
      var e := LimitEvent(s, price, quantity, tif);
      LogKeeps(ex, e);
      SubmitTells(Log(ex, e), s, price, quantity, tif, Some(owner));
    case _ =>
  }

  /** Over any guarded run without a crossing modify, cascades included, an exchange with trades on
      record holds the newest one's price as its last price. */
  lemma {:induction false} NewestTradeIsLast(ex: ExchangeState, cs: seq<Command>)
    requires GoodExchange(ex) && (ex.trades != [] ==> ex.last == Some(ex.trades[|ex.trades| - 1].price))
    requires Guarded(ex, cs) && NeverSilent(ex, cs)
    ensures var end := Run(ex, cs);
            end.trades != [] ==> end.last == Some(end.trades[|end.trades| - 1].price)
    decreases |cs|
  {
    hide GoodExchange, Do, Guard, Silent;
    if cs != [] {
      DoKeeps(ex, cs[0]);
      DoTells(ex, cs[0]);
      NewestTradeIsLast(Do(ex, cs[0]), cs[1..]);
    }
  }

  /** A crossing modify is silent: its trades are the newest, the last price is as it was. */
  lemma CrossingModifyIsSilent(ex: ExchangeState, e: Event)
    requires GoodExchange(ex) && EventGuard(ex, e) && CrossingModify(ex, e)
    ensures var end := Perform(ex, e);
            |end.trades| > |ex.trades| && ex.trades <= end.trades && end.last == ex.last && end.stops == ex.stops
  {
    hide GoodExchange, CrossingModify;
    LogKeeps(ex, e);
    TradesIffCrosses(ex, e);
    ModifyAppends(Log(ex, e), e.id, e.newPrice, e.newQuantity);
    assert Perform(ex, e).stops == ex.stops by {
      ModifyLeavesStops(Log(ex, e), e.id, e.newPrice, e.newQuantity);
    }
  }

  lemma ModifyLeavesStops(ex: ExchangeState, id: OrderId, newPrice: Price, newQuantity: nat)
    ensures ModifyInternal(ex, id, newPrice, newQuantity).0.stops == ex.stops
  {
  }

  // ---- one submission ------------------------------------------------------------------

  /** The price a submission hands to the cascade is that of its trade with the largest id. */
  lemma NewestTradeFires(ex: ExchangeState, s: Side, price: Price, quantity: nat, tif: TimeInForce, owner: Option<nat>,
                         t: Trade)
    requires GoodExchange(ex) && SubmitSafe(ex.book, s, price, quantity, owner, ex.policy)
    requires var trades := Submit(ex, s, price, quantity, tif, owner).1.trades;
             t in trades && forall u | u in trades :: u.id <= t.id
    ensures SubmitAndFire(ex, s, price, quantity, tif, owner).0 ==
            ProcessTradeTriggers(Submit(ex, s, price, quantity, tif, owner).0.(last := Some(t.price)))
  {
    hide GoodExchange, Submit, ProcessTradeTriggers, Greedy, Crossing;
    GoodExchangeBook(ex);
    SubmitIsNaive(ex, s, price, quantity, tif, owner);
    var trades := Submit(ex, s, price, quantity, tif, owner).1.trades;
    var n := SubmitNaively(View(ex.book), ex.book.nextOrderId, s, price, quantity, tif, owner, ex.policy);
    TradesAreFills(n.fills, ex.book.nextTradeId, ex.book.nextTimestamp + 1, ex.book.nextOrderId, s);
    assert trades[|trades| - 1] in trades;
  }
}
