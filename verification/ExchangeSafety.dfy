/** What every command keeps: a well-formed, uncrossed book and an exact stop book. */
module ExchangeSafety {
  import opened Types
  import opened PriceKeys
  import opened OrderModel
  import opened LevelModel
  import opened SideModel
  import opened BookModel
  import opened PriceTime
  import opened MatchModel
  import opened Matching
  import opened Liquidity
  import opened StopModel
  import opened StopTriggers
  import opened StopTrailing
  import opened ExchangeModel
  import opened Submission

  ghost predicate StopsBehind(b: BookState, stops: StopState) {
    && (forall id | id in stops.orders ::
          0 < id < b.nextOrderId && id !in b.orders && stops.orders[id].timestamp < b.nextTimestamp)
  }

  ghost predicate GoodExchange(ex: ExchangeState) {
    && GoodBook(ex.book) && Uncrossed(ex.book) && ex.book.nextOrderId > 0
    && GoodStops(ex.stops) && StopsBehind(ex.book, ex.stops)
  }

  lemma NewExchangeIsGood()
    ensures GoodExchange(NewExchange())
  {
    NewBookIsGood();
    NewStopsAreGood();
  }

  // ---- submitting ------------------------------------------------------------

  // What is left of an unfilled order cannot cross anything left on the other side.
  lemma RemainderDoesNotCross(end: MatchState)
    requires MatchInv(end) && end.done && end.incoming.remaining > 0
    ensures forall q | q in Opposing(end).levels :: !Crosses(end.incoming.side, end.incoming.price, q)
  {
    var sv := Opposing(end);
    forall q | q in sv.levels ensures !Crosses(end.incoming.side, end.incoming.price, q) {
      assert sv.best.Some?;
      assert IsBest(sv.side, sv.levels.Keys, sv.best.value);
    }
  }

  lemma FewerLevelsStayUncrossed(before: BookState, after: BookState)
    requires Uncrossed(before)
    requires after.bids.levels.Keys <= before.bids.levels.Keys
    requires after.asks.levels.Keys <= before.asks.levels.Keys
    ensures Uncrossed(after)
  {
    forall p, q | p in after.bids.levels && q in after.asks.levels ensures p < q {
      assert p in before.bids.levels.Keys && q in before.asks.levels.Keys;
    }
  }

  lemma RestedStaysUncrossed(end: MatchState, o: OrderState)
    requires GoodBook(end.book) && Uncrossed(end.book)
    requires Fresh(end.book, o) && 0 < o.id == end.book.nextOrderId - 1
    requires o.remaining > 0 && o.IsActive() && o.side == end.incoming.side && o.price == end.incoming.price
    requires forall q | q in Opposing(end).levels :: !Crosses(o.side, o.price, q)
    ensures Uncrossed(AddOrder(end.book, o))
  {
    FreshOrderRested(end.book, o);
    var after := AddOrder(end.book, o);
    forall p, q | p in after.bids.levels && q in after.asks.levels ensures p < q {
      assert p in after.bids.levels.Keys && q in after.asks.levels.Keys;
      if o.side.Buy? {
        assert p == o.price || p in end.book.bids.levels;
        assert after.asks == end.book.asks && q in Opposing(end).levels;
      } else {
        assert q == o.price || q in end.book.asks.levels;
        assert after.bids == end.book.bids && p in Opposing(end).levels;
      }
    }
  }

  // A submission's effect outside the levels.
  ghost predicate SubmitFrame(ex: ExchangeState, next: ExchangeState, r: SubmitResult) {
    && next == ex.(book := next.book, trades := ex.trades + r.trades)
    && r.orderId == ex.book.nextOrderId && next.book.nextOrderId == ex.book.nextOrderId + 1
    && next.book.nextTimestamp > ex.book.nextTimestamp
    && next.book.orders.Keys <= ex.book.orders.Keys + {r.orderId}
  }

  lemma SettleKeepsUncrossed(ex: ExchangeState, s: Side, price: Price, quantity: nat, tif: TimeInForce,
                             owner: Option<nat>)
    requires GoodBook(ex.book) && Uncrossed(ex.book) && ex.book.nextOrderId > 0
    requires SubmitSafe(ex.book, s, price, quantity, owner, ex.policy)
    ensures var (next, r) := Settle(ex, Matched(ex, s, price, quantity, tif, owner), quantity, tif);
            Uncrossed(next.book) && SubmitFrame(ex, next, r)
  {
    var end := Matched(ex, s, price, quantity, tif, owner);
    MatchedAgrees(ex, s, price, quantity, tif, owner);
    FewerLevelsStayUncrossed(ex.book, end.book);
    var o := end.incoming;
    if !end.stpCancelled && o.remaining > 0 && tif.GTC? {
      RemainderDoesNotCross(end);
      RestedStaysUncrossed(end, o.(status := if o.filled > 0 then PartiallyFilled else New));
    }
  }

  /** Every submission whose self-trade cancels are safe leaves a good exchange. */
  lemma SubmitKeeps(ex: ExchangeState, s: Side, price: Price, quantity: nat, tif: TimeInForce, owner: Option<nat>)
    requires GoodExchange(ex)
    requires SubmitSafe(ex.book, s, price, quantity, owner, ex.policy)
    ensures var (next, r) := Submit(ex, s, price, quantity, tif, owner);
            GoodExchange(next) && SubmitFrame(ex, next, r)
  {
    SubmitIsNaive(ex, s, price, quantity, tif, owner);
    if FokRejected(ex.book, s, price, quantity, tif) {
      assert ex.trades + [] == ex.trades;
    } else {
      SettleKeepsUncrossed(ex, s, price, quantity, tif, owner);
    }
  }

  lemma UntaggedIsSafe(b: BookState, s: Side, price: Price, quantity: nat, policy: StpPolicy)
    ensures SubmitSafe(b, s, price, quantity, None, policy)
  {
    NoStpIsSafe(b.LiveOn(s.Opposite()), Taker(s, price, quantity, None), policy, b.orders);
  }

  // ---- the stop cascade ---------------------------------------------------------

  lemma SubmitStopKeeps(ex: ExchangeState, o: StopOrder)
    requires GoodExchange(ex)
    ensures var (next, r) := SubmitStop(ex, o);
            GoodExchange(next) && SubmitFrame(ex, next, r)
  {
    var price := if o.limitPrice.Some? then o.limitPrice.value else MarketPrice(o.side);
    UntaggedIsSafe(ex.book, o.side, price, o.quantity, ex.policy);
    SubmitKeeps(ex, o.side, price, o.quantity, if o.limitPrice.Some? then o.tif else IOC, None);
  }

  lemma {:induction false} SubmitStopsKeeps(ex: ExchangeState, stops: seq<StopOrder>, newLast: Option<Price>)
    requires GoodExchange(ex)
    ensures var next := SubmitStops(ex, stops, newLast).0;
            && GoodExchange(next)
            && next == ex.(book := next.book, trades := next.trades)
            && next.book.nextOrderId >= ex.book.nextOrderId
    decreases |stops|
  {
    if stops != [] {
      SubmitStopKeeps(ex, stops[0]);
      var (next, r) := SubmitStop(ex, stops[0]);
      SubmitStopsKeeps(next, stops[1..], if r.trades == [] then newLast else LastPrice(r.trades));
    }
  }

  /** No pending stop is triggerable at the last trade price. */
  ghost predicate Quiet(ex: ExchangeState) {
    ex.last.Some? ==> TriggerableIds(ex.stops.orders, ex.last.value) == {}
  }

  lemma FireAtKeeps(ex: ExchangeState, p: Price)
    requires GoodExchange(ex)
    ensures var (fired, hit) := FireAt(ex, p);
            && GoodExchange(fired) && fired == ex.(stops := fired.stops)
            && TriggerableIds(fired.stops.orders, p) == {}
            && PendingIds(fired.stops.orders) <= PendingIds(ex.stops.orders)
            && (hit != [] ==> |PendingIds(fired.stops.orders)| < |PendingIds(ex.stops.orders)|)
  {
    RoundFires(ex.stops, p);
  }

  // The invariant does not read the last price.
  lemma RepricedIsGood(ex: ExchangeState, last: Option<Price>)
    requires GoodExchange(ex)
    ensures GoodExchange(ex.(last := last))
  {
  }

  lemma RoundKeeps(ex: ExchangeState)
    requires GoodExchange(ex) && ex.last.Some?
    ensures var RoundResult(next, again) := CascadeRound(ex);
            && GoodExchange(next) && next.last.Some?
            && next.policy == ex.policy && next.events == ex.events
            && next.book.nextOrderId >= ex.book.nextOrderId
            && (if again then |PendingIds(next.stops.orders)| < |PendingIds(ex.stops.orders)| else Quiet(next))
  {
    hide GoodExchange;
    var p := ex.last.value;
    FireAtKeeps(ex, p);
    var (fired, hit) := FireAt(ex, p);
    if hit != [] {
      SubmitStopsKeeps(fired, hit, None);
      var (next, newLast) := SubmitStops(fired, hit, None);
      RepricedIsGood(next, newLast);
    }
  }

  // What every round keeps, all of them keep.
  lemma {:induction false} RoundsInvariant<S(!new)>(round: S -> RoundResult<S>, inv: S -> bool, s: S, n: nat)
    requires inv(s)
    requires forall e | inv(e) :: inv(round(e).next)
    ensures inv(Rounds(round, s, n))
    decreases n
  {
    if n > 0 && round(s).again {
      RoundsInvariant(round, inv, round(s).next, n - 1);
    }
  }

  // If a round that asks for another one brings a measure down, then all `n` were used
  // before a calm one is missed.
  lemma {:induction false} RoundsCalm<S(!new)>(round: S -> RoundResult<S>, inv: S -> bool, calm: S -> bool,
                                               measure: S -> nat, s: S, n: nat)
    requires inv(s)
    requires forall e | inv(e) :: inv(round(e).next)
    requires forall e | inv(e) :: if round(e).again then measure(round(e).next) < measure(e) else calm(round(e).next)
    ensures calm(Rounds(round, s, n)) || measure(Rounds(round, s, n)) + n <= measure(s)
    decreases n
  {
    if n > 0 && round(s).again {
      RoundsCalm(round, inv, calm, measure, round(s).next, n - 1);
    }
  }

  ghost function PendingCount(ex: ExchangeState): nat {
    |PendingIds(ex.stops.orders)|
  }

  // What a cascade started from `ex` keeps of it.
  ghost predicate CascadeFrame(ex: ExchangeState, after: ExchangeState) {
    && after.last.Some? && after.policy == ex.policy && after.events == ex.events
    && after.book.nextOrderId >= ex.book.nextOrderId
  }

  /** Each round that leaves a stop triggerable consumed one, and the invariant holds throughout. */
  lemma CascadeQuiets(ex: ExchangeState, n: nat)
    requires GoodExchange(ex) && ex.last.Some?
    ensures var after := Cascade(ex, n);
            && GoodExchange(after) && CascadeFrame(ex, after)
            && (Quiet(after) || PendingCount(after) + n <= PendingCount(ex))
  {
    hide GoodExchange, GoodStops, GoodBook, GoodSide, IndexExact, CascadeRound;
    var round := (e: ExchangeState) => CascadeRound(e);
    var inv := (e: ExchangeState) => GoodExchange(e) && CascadeFrame(ex, e);
    var calm, measure := (e: ExchangeState) => Quiet(e), (e: ExchangeState) => PendingCount(e);
    forall e | inv(e)
      ensures inv(round(e).next)
      ensures if round(e).again then measure(round(e).next) < measure(e) else calm(round(e).next)
    {
      RoundKeeps(e);
    }
    RoundsInvariant(round, inv, ex, n);
    RoundsCalm(round, inv, calm, measure, ex, n);
  }

  /** With at most 100 pending stops the cascade reaches quiescence; in any case, one
      that does not has consumed at least 100 stops. */
  lemma CascadeReachesQuiescence(ex: ExchangeState)
    requires GoodExchange(ex) && ex.last.Some?
    ensures var after := ProcessTradeTriggers(ex);
            && GoodExchange(after)
            && (PendingCount(ex) <= MAX_CASCADE_DEPTH ==> Quiet(after))
            && (!Quiet(after) ==> PendingCount(after) + MAX_CASCADE_DEPTH <= PendingCount(ex))
  {
    CascadeQuiets(ex, MAX_CASCADE_DEPTH);
    var after := ProcessTradeTriggers(ex);
    if PendingIds(after.stops.orders) == {} {
      assert TriggerableIds(after.stops.orders, after.last.value) <= PendingIds(after.stops.orders);
    }
  }
}
