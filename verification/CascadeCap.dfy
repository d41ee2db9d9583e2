/** When the bound of 100 rounds on a stop cascade can be told from no bound at all. */
module CascadeCap {
  import opened Types
  import opened PriceKeys
  import opened SideModel
  import opened BookModel
  import opened PriceTime
  import opened Matching
  import opened Liquidity
  import opened StopModel
  import opened StopTriggers
  import opened StopTrailing
  import opened ExchangeModel
  import opened Submission
  import opened ExchangeSafety
  import opened ExchangeRuns
  import opened Guarantees
  import opened ReplayFidelity

  // ---- rounds that ask for another ---------------------------------------------------

  // Each of the first `n` rounds asks for another.
  ghost predicate AllAsk(ex: ExchangeState, n: nat)
    decreases n
  {
    n == 0 || (CascadeRound(ex).again && AllAsk(CascadeRound(ex).next, n - 1))
  }

  /** A round that asks for another consumed at least one pending stop; one that does not leaves
      none triggerable. */
  lemma RoundConsumes(ex: ExchangeState)
    requires GoodExchange(ex) && ex.last.Some?
    ensures CascadeRound(ex).again ==> PendingCount(CascadeRound(ex).next) < PendingCount(ex)
    ensures !CascadeRound(ex).again ==> Quiet(CascadeRound(ex).next)
  {
    RoundKeeps(ex);
  }

  lemma {:induction false} AskingConsumes(ex: ExchangeState, n: nat)
    requires GoodExchange(ex) && ex.last.Some? && AllAsk(ex, n)
    ensures var after := Cascade(ex, n);
            && GoodExchange(after) && after.last.Some?
            && PendingCount(after) + n <= PendingCount(ex)
    decreases n
  {
    hide GoodExchange, CascadeRound, PendingCount;
    if n > 0 {
      RoundKeeps(ex);
      RoundConsumes(ex);
      AskingConsumes(CascadeRound(ex).next, n - 1);
    }
  }

  // A cascade some round of which does not ask stops there, whatever the bound.
  lemma {:induction false} StopsEarly(ex: ExchangeState, n: nat, m: nat)
    requires !AllAsk(ex, n) && n <= m
    ensures Cascade(ex, m) == Cascade(ex, n)
    decreases n
  {
    hide CascadeRound;
    if CascadeRound(ex).again {
      StopsEarly(CascadeRound(ex).next, n - 1, m - 1);
    }
  }

  /** With fewer than 100 pending stops no larger bound would make a difference. */
  lemma CapUnseen(ex: ExchangeState, m: nat)
    requires GoodExchange(ex) && ex.last.Some? && PendingCount(ex) < MAX_CASCADE_DEPTH <= m
    ensures Cascade(ex, m) == ProcessTradeTriggers(ex)
  {
    if AllAsk(ex, MAX_CASCADE_DEPTH) {
      AskingConsumes(ex, MAX_CASCADE_DEPTH);
    }
    StopsEarly(ex, MAX_CASCADE_DEPTH, m);
  }

  // ---- one more round shows ------------------------------------------------------------

  lemma RoundCounts(ex: ExchangeState)
    requires GoodExchange(ex) && ex.last.Some? && |ex.stops.changes| < MAX_PRICE_HISTORY
    ensures var after := CascadeRound(ex).next.stops;
            && after.last.Some? && |ex.stops.changes| <= |after.changes| <= |ex.stops.changes| + 1
            && (ex.stops.last.Some? ==> |after.changes| == |ex.stops.changes| + 1)
  {
    hide GoodStops, IndexExact;
    var p := ex.last.value;
    UpdateExact(ex.stops, p);
    FireAtKeeps(ex, p);
    SubmitStopsKeeps(FireAt(ex, p).0, FireAt(ex, p).1, None);
  }

  lemma {:induction false} OneMoreRound(ex: ExchangeState, n: nat)
    requires AllAsk(ex, n)
    ensures Cascade(ex, n + 1) == CascadeRound(Cascade(ex, n)).next
    decreases n
  {
    hide CascadeRound;
    if n > 0 {
      OneMoreRound(CascadeRound(ex).next, n - 1);
      assert Cascade(ex, n + 1) == Cascade(CascadeRound(ex).next, n);
    } else {
      assert Cascade(ex, 0) == ex;
      assert Cascade(CascadeRound(ex).next, 0) == CascadeRound(ex).next;
    }
  }

  lemma {:induction false} ChangesGrow(ex: ExchangeState, n: nat)
    requires GoodExchange(ex) && ex.last.Some? && AllAsk(ex, n)
    requires |ex.stops.changes| + n < MAX_PRICE_HISTORY
    ensures var after := Cascade(ex, n);
            && |after.stops.changes| <= |ex.stops.changes| + n
            && (n > 0 ==> after.stops.last.Some?)
    decreases n
  {
    hide GoodExchange, CascadeRound;
    if n > 0 {
      RoundKeeps(ex);
      RoundCounts(ex);
      ChangesGrow(CascadeRound(ex).next, n - 1);
      assert Cascade(ex, n) == Cascade(CascadeRound(ex).next, n - 1);
      assert n == 1 ==> Cascade(ex, n) == CascadeRound(ex).next;
    }
  }

  /** If all `n` rounds ask for another, a round more would at least record one more price change. */
  lemma OneMoreDiffers(ex: ExchangeState, n: nat)
    requires GoodExchange(ex) && ex.last.Some? && AllAsk(ex, n)
    requires |ex.stops.changes| + n < MAX_PRICE_HISTORY
    ensures Cascade(ex, n + 1) != Cascade(ex, n)
  {
    hide GoodExchange, CascadeRound;
    AskingConsumes(ex, n);
    ChangesGrow(ex, n);
    OneMoreRound(ex, n);
    RoundCounts(Cascade(ex, n));
  }

  /** Below the history cap the bound shows exactly when all 100 rounds ask for another. */
  lemma CapSeenIff(ex: ExchangeState)
    requires GoodExchange(ex) && ex.last.Some?
    requires |ex.stops.changes| + MAX_CASCADE_DEPTH < MAX_PRICE_HISTORY
    ensures (forall m: nat | m >= MAX_CASCADE_DEPTH :: Cascade(ex, m) == ProcessTradeTriggers(ex)) <==>
            !AllAsk(ex, MAX_CASCADE_DEPTH)
  {
    hide GoodExchange, Cascade, AllAsk;
    if AllAsk(ex, MAX_CASCADE_DEPTH) {
      OneMoreDiffers(ex, MAX_CASCADE_DEPTH);
    } else {
      forall m: nat | m >= MAX_CASCADE_DEPTH ensures Cascade(ex, m) == ProcessTradeTriggers(ex) {
        StopsEarly(ex, MAX_CASCADE_DEPTH, m);
      }
    }
  }

  // ---- a ladder of exactly as many stops as rounds ---------------------------------------

  // Pending are exactly the ids `p + d .. top + d`: buy stops for 1 at `p .. top`, id less `d`.
  ghost predicate Waits(orders: StopMap, d: int, p: Price, top: Price) {
    && (forall id: nat :: IsPending(orders, id) <==> p + d <= id < top + d)
    && (forall id: nat | IsPending(orders, id) ::
          var o := orders[id];
          o.side.Buy? && o.limitPrice.None? && o.trail.None? && o.quantity == 1 && o.stopPrice == id - d)
  }

  // Asks for 1 at every price from `p + 1` up.
  ghost predicate Rungs(live: seq<Resting>, p: Price) {
    forall i | 0 <= i < |live| :: live[i].price == p + 1 + i && live[i].quantity == 1
  }

  ghost predicate Ladder(ex: ExchangeState, d: int, p: Price, top: Price) {
    && GoodExchange(ex) && ex.last == Some(p) && p <= top < MAX_PRICE
    && p + d >= 0
    && Waits(ex.stops.orders, d, p, top)
    && |View(ex.book).asks| >= top - p && Rungs(View(ex.book).asks, p)
  }

  lemma UntrailedStay(b: StopState, p: Price)
    requires GoodStops(b) && forall id | IsPending(b.orders, id) :: b.orders[id].trail.None?
    ensures GoodStops(UpdateTrailing(b, p)) && UpdateTrailing(b, p).orders == b.orders
  {
    UpdateExact(b, p);
    var after := UpdateTrailing(b, p).orders;
    assert forall id | id in after :: id in b.orders && after[id] == b.orders[id];
  }

  lemma OneReached(orders: StopMap, d: int, p: Price, top: Price)
    requires Waits(orders, d, p, top) && p < top && p + d >= 0
    ensures TriggerableIds(orders, p) == {p + d}
    ensures Waits(Fire(orders, {p + d}), d, p + 1, top)
  {
    assert IsPending(orders, p + d);
    var after := Fire(orders, {p + d});
    forall id: nat ensures id in TriggerableIds(orders, p) <==> id == p + d {
      assert IsPending(orders, id) <==> p + d <= id < top + d;
    }
    forall id: nat ensures IsPending(after, id) <==> p + 1 + d <= id < top + d {
      assert IsPending(orders, id) <==> p + d <= id < top + d;
    }
  }

  lemma OnlyHit(hit: seq<StopOrder>, orders: StopMap, p: Price, id: OrderId)
    requires Fired(hit, orders, p) && TriggerableIds(orders, p) == {id}
    ensures id in orders && hit == [orders[id].(status := Triggered)]
  {
    assert id in TriggerableIds(orders, p);
    var o := orders[id].(status := Triggered);
    assert o in hit;
    forall k | 0 <= k < |hit| ensures hit[k] == o {
      assert hit[k] in hit;
    }
    assert |hit| > 1 ==> hit[0].timestamp != hit[1].timestamp;
  }

  // The stops once the rung at `p` has fired, and what fired.
  lemma LadderFires(ex: ExchangeState, d: int, p: Price, top: Price)
    requires Ladder(ex, d, p, top) && p < top
    ensures var (fired, hit) := FireAt(ex, p);
            && GoodExchange(fired) && fired == ex.(stops := fired.stops)
            && |hit| == 1 && hit[0].side.Buy? && hit[0].limitPrice.None? && hit[0].quantity == 1
            && Waits(fired.stops.orders, d, p + 1, top)
  {
    hide GoodBook, IndexExact;
    FireAtKeeps(ex, p);
    UntrailedStay(ex.stops, p);
    OneReached(ex.stops.orders, d, p, top);
    var moved := UpdateTrailing(ex.stops, p);
    CollectExact(moved, p);
    OnlyHit(CollectTriggered(moved, p).1, moved.orders, p, p + d);
  }

  // A market buy of 1 takes the first rung.
  lemma TakesFirst(ex: ExchangeState, price: Price, tif: TimeInForce, p: Price)
    requires GoodExchange(ex) && View(ex.book).asks != [] && Rungs(View(ex.book).asks, p) && price > p && !tif.FOK?
    ensures var (next, r) := Submit(ex, Buy, price, 1, tif, None);
            && GoodExchange(next) && next.stops == ex.stops && next.last == ex.last
            && r.trades != [] && LastPrice(r.trades) == Some(p + 1)
            && View(next.book).asks == View(ex.book).asks[1..]
  {
    hide GoodBook, GoodStops, Submit;
    UntaggedIsSafe(ex.book, Buy, price, 1, ex.policy);
    SubmitKeeps(ex, Buy, price, 1, tif, None);
    SubmitIsNaive(ex, Buy, price, 1, tif, None);
    FirstRung(View(ex.book).asks, price, ex.policy, p);
    var f := Fill(View(ex.book).asks[0].id, p + 1, 1);
    assert Volume([f]) == 1;
    TradesAreFills([f], ex.book.nextTradeId, ex.book.nextTimestamp + 1, ex.book.nextOrderId, Buy);
  }

  lemma FirstRung(live: seq<Resting>, price: Price, policy: StpPolicy, p: Price)
    requires live != [] && Rungs(live, p) && price > p
    ensures Greedy(live, Taker(Buy, price, 1, None), policy) ==
            Outcome([Fill(live[0].id, p + 1, 1)], 0, live[1..], false)
  {
    assert Greedy(live[1..], Taker(Buy, price, 0, None), policy) == Outcome([], 0, live[1..], false);
  }

  lemma LadderRound(ex: ExchangeState, d: int, p: Price, top: Price)
    requires Ladder(ex, d, p, top) && p < top
    ensures CascadeRound(ex).again && Ladder(CascadeRound(ex).next, d, p + 1, top)
  {
    hide GoodExchange, Submit, FireAt, Waits;
    LadderFires(ex, d, p, top);
    var (fired, hit) := FireAt(ex, p);
    TakesFirst(fired, MAX_PRICE, IOC, p);
    var (next, r) := SubmitStop(fired, hit[0]);
    assert SubmitStops(fired, hit, None) == (next, Some(p + 1)) by {
      assert hit[1..] == [];
    }
    RepricedIsGood(next, Some(p + 1));
  }

  lemma LadderPending(orders: StopMap, d: int, p: Price, top: Price)
    requires Waits(orders, d, p, top) && p + d >= 0 && p <= top
    ensures |PendingIds(orders)| == top - p
  {
    forall id: nat ensures id in PendingIds(orders) <==> id in Between(p + d, top + d) {
      assert IsPending(orders, id) <==> p + d <= id < top + d;
      BetweenIs(p + d, top + d, id);
    }
    assert PendingIds(orders) == Between(p + d, top + d);
    BetweenSize(p + d, top + d);
  }

  function Between(lo: nat, hi: nat): set<nat> {
    if hi <= lo then {} else Between(lo, hi - 1) + {hi - 1}
  }

  lemma {:induction false} BetweenIs(lo: nat, hi: nat, id: nat)
    ensures id in Between(lo, hi) <==> lo <= id < hi
    decreases hi
  {
    if lo < hi {
      BetweenIs(lo, hi - 1, id);
    }
  }

  lemma {:induction false} BetweenSize(lo: nat, hi: nat)
    requires lo <= hi
    ensures |Between(lo, hi)| == hi - lo
    decreases hi
  {
    if lo < hi {
      BetweenSize(lo, hi - 1);
      BetweenIs(lo, hi - 1, hi - 1);
    }
  }

  lemma {:induction false} LadderAsks(ex: ExchangeState, d: int, p: Price, top: Price)
    requires Ladder(ex, d, p, top)
    ensures AllAsk(ex, top - p)
    decreases top - p
  {
    hide Ladder, CascadeRound;
    LadderBounds(ex, d, p, top);
    if p < top {
      LadderRound(ex, d, p, top);
      LadderAsks(CascadeRound(ex).next, d, p + 1, top);
    }
  }

  lemma LadderBounds(ex: ExchangeState, d: int, p: Price, top: Price)
    requires Ladder(ex, d, p, top)
    ensures p <= top && GoodExchange(ex) && ex.last.Some? && PendingCount(ex) == top - p
  {
    LadderPending(ex.stops.orders, d, p, top);
  }

  // ---- the ladder is reachable ------------------------------------------------------------

  lemma {:induction false} RunPushed(ex: ExchangeState, cs: seq<Command>, c: Command)
    ensures Run(ex, cs + [c]) == Do(Run(ex, cs), c)
    ensures Guarded(ex, cs + [c]) <==> Guarded(ex, cs) && Guard(Run(ex, cs), c)
    decreases |cs|
  {
    hide Do, Guard;
    if cs == [] {
      assert cs + [c] == [c] && [c][1..] == [];
    } else {
      RunPushed(Do(ex, cs[0]), cs[1..], c);
      assert (cs + [c])[1..] == cs[1..] + [c];
    }
  }

  // `k` sells rest at 101, 102 and so on, and nothing else has happened.
  ghost predicate SellsRest(ex: ExchangeState, k: nat) {
    && GoodExchange(ex) && ex.stops == NewStops() && ex.last.None?
    && View(ex.book).bids == [] && |View(ex.book).asks| == k && Rungs(View(ex.book).asks, 100)
    && ex.book.nextOrderId == k + 1
  }

  function SellAt(k: nat): Command {
    Public(LimitEvent(Sell, 101 + k, 1, GTC))
  }

  lemma SellOnTop(nb: NaiveBook, id: OrderId, k: nat, policy: StpPolicy)
    requires nb.bids == [] && |nb.asks| == k && Rungs(nb.asks, 100)
    ensures var n := SubmitNaively(nb, id, Sell, 101 + k, 1, GTC, None, policy);
            && n.fills == [] && n.book.bids == []
            && |n.book.asks| == k + 1 && Rungs(n.book.asks, 100)
  {
    var r := Resting(id, 101 + k, 1, None);
    assert Greedy([], Taker(Sell, 101 + k, 1, None), policy) == Outcome([], 1, [], false);
    InsertPasses(Sell, nb.asks, [], r);
    assert nb.asks + [] == nb.asks;
  }

  lemma SellRung(ex: ExchangeState, k: nat)
    requires SellsRest(ex, k)
    ensures SellsRest(Do(ex, SellAt(k)), k + 1)
  {
    hide GoodBook, GoodStops, Submit, SubmitNaively, Rungs;
    var logged := Log(ex, SellAt(k).event);
    LogKeeps(ex, SellAt(k).event);
    UntaggedIsSafe(logged.book, Sell, 101 + k, 1, logged.policy);
    SubmitKeeps(logged, Sell, 101 + k, 1, GTC, None);
    SubmitIsNaive(logged, Sell, 101 + k, 1, GTC, None);
    SellOnTop(View(logged.book), logged.book.nextOrderId, k, logged.policy);
    TradesAreFills([], logged.book.nextTradeId, logged.book.nextTimestamp + 1, logged.book.nextOrderId, Sell);
  }

  lemma {:induction false} ManySells(k: nat) returns (cs: seq<Command>)
    ensures Guarded(NewExchange(), cs) && SellsRest(Run(NewExchange(), cs), k)
  {
    hide SellsRest;
    if k == 0 {
      cs := [];
      NoSellsYet();
    } else {
      var before := ManySells(k - 1);
      cs := before + [SellAt(k - 1)];
      RunPushed(NewExchange(), before, SellAt(k - 1));
      SellRung(Run(NewExchange(), before), k - 1);
    }
  }

  lemma NoSellsYet()
    ensures SellsRest(NewExchange(), 0)
  {
    NewExchangeIsGood();
    NewBookIsGood();
  }

  // `n + 1` sells rest, and `k` buy stops wait at 101, 102 and so on.
  ghost predicate StopsWait(ex: ExchangeState, n: nat, k: nat) {
    && GoodExchange(ex) && ex.last.None? && ex.stops.changes == []
    && |View(ex.book).asks| == n + 1 && Rungs(View(ex.book).asks, 100)
    && ex.book.nextOrderId == n + 2 + k
    && Waits(ex.stops.orders, n - 99, 101, 101 + k)
  }

  function StopAt(k: nat): Command {
    Public(StopMarketEvent(Buy, 101 + k, 1))
  }

  lemma StopRung(ex: ExchangeState, n: nat, k: nat)
    requires StopsWait(ex, n, k)
    ensures StopsWait(Do(ex, StopAt(k)), n, k + 1)
  {
    hide GoodBook, GoodStops, Rungs;
    var logged := Log(ex, StopAt(k).event);
    LogKeeps(ex, StopAt(k).event);
    var o := NewStop(logged.book, Buy, 101 + k, None, 1, GTC, None);
    PlaceStopKeeps(logged, o);
    var next := PlaceStop(logged, o);
    assert Do(ex, StopAt(k)) == next;
    assert View(next.book) == View(ex.book);
    assert next.stops.orders == ex.stops.orders[o.id := o];
    forall id: nat
      ensures IsPending(next.stops.orders, id) <==> 101 + (n - 99) <= id < 101 + (k + 1) + (n - 99)
    {
      assert IsPending(ex.stops.orders, id) <==> 101 + (n - 99) <= id < 101 + k + (n - 99);
    }
  }

  lemma {:induction false} ManyStops(n: nat, k: nat) returns (cs: seq<Command>)
    ensures Guarded(NewExchange(), cs) && StopsWait(Run(NewExchange(), cs), n, k)
    decreases k
  {
    hide StopsWait, SellsRest;
    if k == 0 {
      cs := ManySells(n + 1);
      NoStopsYet(Run(NewExchange(), cs), n);
    } else {
      var before := ManyStops(n, k - 1);
      cs := before + [StopAt(k - 1)];
      RunPushed(NewExchange(), before, StopAt(k - 1));
      StopRung(Run(NewExchange(), before), n, k - 1);
    }
  }

  lemma NoStopsYet(ex: ExchangeState, n: nat)
    requires SellsRest(ex, n + 1)
    ensures StopsWait(ex, n, 0)
  {
  }

  const FIRST_BUY: Event := LimitEvent(Buy, 101, 1, GTC)

  // The state the cascade of the first buy starts from.
  ghost function BeforeCascade(ex: ExchangeState): ExchangeState {
    var (next, r) := Submit(Log(ex, FIRST_BUY), Buy, 101, 1, GTC, None);
    next.(last := LastPrice(r.trades))
  }

  lemma FirstBuyLadder(ex: ExchangeState, n: nat)
    requires StopsWait(ex, n, n) && 101 + n < MAX_PRICE
    ensures Ladder(BeforeCascade(ex), n - 99, 101, 101 + n) && BeforeCascade(ex).stops.changes == []
  {
    hide GoodExchange, Submit, Waits;
    LogKeeps(ex, FIRST_BUY);
    var logged := Log(ex, FIRST_BUY);
    TakesFirst(logged, 101, GTC, 100);
    RepricedIsGood(Submit(logged, Buy, 101, 1, GTC, None).0, Some(101));
  }

  /** Exactly 100 pending stops can make the bound show: a reachable exchange where every one of the
      100 rounds asks for another, and a 101st would change the exchange once more. */
  lemma CapIsSeen() returns (cs: seq<Command>)
    ensures var ex := BeforeCascade(Run(NewExchange(), cs));
            && Guarded(NewExchange(), cs)
            && GoodExchange(ex) && ex.last.Some? && PendingCount(ex) == MAX_CASCADE_DEPTH
            && AllAsk(ex, MAX_CASCADE_DEPTH)
            && Cascade(ex, MAX_CASCADE_DEPTH + 1) != ProcessTradeTriggers(ex)
  {
    hide Ladder, StopsWait, AllAsk;
    cs := ManyStops(MAX_CASCADE_DEPTH, MAX_CASCADE_DEPTH);
    var at := Run(NewExchange(), cs);
    FirstBuyLadder(at, MAX_CASCADE_DEPTH);
    var ex := BeforeCascade(at);
    LadderBounds(ex, 1, 101, 201);
    LadderAsks(ex, 1, 101, 201);
    OneMoreDiffers(ex, MAX_CASCADE_DEPTH);
  }
}
