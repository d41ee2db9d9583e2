/** Self-trade prevention seen from outside: strangers trade as if there were none, and what
    happens to a taker and its own resting order when they meet. */
module StpEffects {
  import opened Types
  import opened PriceKeys
  import opened SideModel
  import opened BookModel
  import opened PriceTime
  import opened Matching
  import opened Liquidity
  import opened ExchangeModel
  import opened Submission
  import opened ExchangeSafety
  import opened Guarantees
  import opened Dormant

  // Nobody on the list has the owner.
  predicate Strangers(owner: Option<nat>, live: seq<Resting>) {
    owner.Some? ==> forall r | r in live :: r.owner != owner
  }

  lemma {:induction false} StrangersAreSafe(live: seq<Resting>, t: Taker, policy: StpPolicy, orders: OrderMap)
    requires Strangers(t.owner, live)
    ensures StpSafe(live, t, policy, orders) && !Clashes(policy, t.owner, live)
  {
    if Reaches(live, t) {
      assert live[0] in live;
      if t.left >= live[0].quantity {
        assert forall r | r in live[1..] :: r in live;
        StrangersAreSafe(live[1..], t.(left := t.left - live[0].quantity), policy, orders);
      }
    }
  }

  /** Under any policy a submission that meets no order of its own owner, and is not rejected, fills
      the smaller of what it asks for and what is available. */
  lemma StrangersFill(ex: ExchangeState, s: Side, price: Price, quantity: nat, tif: TimeInForce, owner: Option<nat>)
    requires GoodExchange(ex) && Strangers(owner, View(ex.book).On(s.Opposite()))
    requires !FokRejected(ex.book, s, price, quantity, tif)
    ensures SubmitSafe(ex.book, s, price, quantity, owner, ex.policy)
    ensures var (next, r) := Submit(ex, s, price, quantity, tif, owner);
            && r.filled == Min(quantity, AvailableToFill(ex.book, s, price))
            && (r.status.Filled? <==> r.filled == quantity)
            && r.resting == (if tif.GTC? then quantity - r.filled else 0)
            && r.cancelled == (if tif.GTC? then 0 else quantity - r.filled)
            && SumQuantity(View(next.book).On(s.Opposite())) + r.filled == SumQuantity(View(ex.book).On(s.Opposite()))
  {
    hide SortedKeys, Submit, Settle, QuantityAtOrBetter, Reaches, CreateOrder, GoodSide;
    var live, t := View(ex.book).On(s.Opposite()), Taker(s, price, quantity, owner);
    GoodExchangeBook(ex);
    StrangersAreSafe(live, t, ex.policy, ex.book.orders);
    SubmitIsNaive(ex, s, price, quantity, tif, owner);
    Available(ex.book, s, price);
    SideInPriority(ex.book, s.Opposite());
    GreedyTradesAllItCan(live, t, ex.policy);
  }

  // ---- meeting an own order --------------------------------------------------------

  // The first own order on the list stands at `k`, inside the limit, and the strangers in front
  // of it leave the taker open.
  predicate MeetsOwn(live: seq<Resting>, s: Side, limit: Price, quantity: nat, o: nat, k: nat) {
    && k < |live| && live[k].owner == Some(o)
    && (if s.Buy? then live[k].price <= limit else live[k].price >= limit)
    && Strangers(Some(o), live[..k])
    && SumQuantity(live[..k]) < quantity
  }

  // Every order on the list traded whole.
  function WholeFills(live: seq<Resting>): (fills: seq<Fill>)
    ensures |fills| == |live|
  {
    if live == [] then []
    else [Fill(live[0].id, live[0].price, live[0].quantity)] + WholeFills(live[1..])
  }

  lemma {:induction false} WholeFillsAre(live: seq<Resting>)
    ensures forall j | 0 <= j < |live| :: WholeFills(live)[j] == Fill(live[j].id, live[j].price, live[j].quantity)
    ensures Volume(WholeFills(live)) == SumQuantity(live)
  {
    if live != [] {
      WholeFillsAre(live[1..]);
      assert WholeFills(live)[1..] == WholeFills(live[1..]);
    }
  }

  lemma {:induction false} VolumeConcat(a: seq<Fill>, b: seq<Fill>)
    ensures Volume(a + b) == Volume(a) + Volume(b)
  {
    if a == [] {
      assert a + b == b;
    } else {
      assert (a + b)[1..] == a[1..] + b;
      VolumeConcat(a[1..], b);
    }
  }

  // What the walk does after trading the first `k` orders whole.
  ghost predicate After(live: seq<Resting>, t: Taker, policy: StpPolicy, k: nat, rest: Outcome) {
    k <= |live| && Greedy(live, t, policy) == rest.(fills := WholeFills(live[..k]) + rest.fills)
  }

  // One turn of the walk against a stranger who has no more than the taker asks for.
  lemma WalkTakesHead(live: seq<Resting>, t: Taker, policy: StpPolicy, t2: Taker)
    requires Reaches(live, t) && Strangers(t.owner, [live[0]])
    requires live[0].quantity < t.left && t2 == t.(left := t.left - live[0].quantity)
    ensures var rest := Greedy(live[1..], t2, policy);
            Greedy(live, t, policy) ==
            rest.(fills := [Fill(live[0].id, live[0].price, live[0].quantity)] + rest.fills)
  {
    assert live[0] in [live[0]];
  }

  lemma {:induction false} WalkPast(live: seq<Resting>, t: Taker, policy: StpPolicy, k: nat, front: nat)
    requires InPriority(t.side.Opposite(), live) && k < |live| && Crosses(t.side, t.limit, live[k].price)
    requires Strangers(t.owner, live[..k]) && front == SumQuantity(live[..k]) < t.left
    ensures After(live, t, policy, k, Greedy(live[k..], t.(left := t.left - front), policy))
    decreases k
  {
    hide Greedy, InPriority;
    if k == 0 {
      assert live[0..] == live && WholeFills(live[..0]) == [];
      assert t.(left := t.left - 0) == t;
      var g := Greedy(live, t, policy);
      assert [] + g.fills == g.fills;
    } else {
      var h, tail := live[0], live[1..];
      FrontOfList(live, k);
      CrossesBefore(live, t, k);
      var t2 := t.(left := t.left - h.quantity);
      WalkTakesHead(live, t, policy, t2);
      TailInPriority(live, t.side.Opposite());
      WalkPast(tail, t2, policy, k - 1, front - h.quantity);
      assert t2.(left := t2.left - (front - h.quantity)) == t.(left := t.left - front);
      var rest := Greedy(live[k..], t.(left := t.left - front), policy);
      assert [Fill(h.id, h.price, h.quantity)] + (WholeFills(tail[..k - 1]) + rest.fills)
          == WholeFills(live[..k]) + rest.fills;
    }
  }

  lemma FrontOfList(live: seq<Resting>, k: nat)
    requires 0 < k < |live|
    ensures live[..k][0] == live[0] && live[..k][1..] == live[1..][..k - 1] && live[1..][k - 1..] == live[k..]
    ensures live[0] in live[..k] && forall r | r in live[1..][..k - 1] :: r in live[..k]
    ensures SumQuantity(live[..k]) == live[0].quantity + SumQuantity(live[1..][..k - 1])
  {
    assert live[..k][1..] == live[1..][..k - 1];
    assert live[..k][0] in live[..k];
    forall r | r in live[1..][..k - 1] ensures r in live[..k] {
      assert r in live[..k][1..];
    }
  }

  lemma CrossesBefore(live: seq<Resting>, t: Taker, k: nat)
    requires InPriority(t.side.Opposite(), live) && 0 < k < |live| && Crosses(t.side, t.limit, live[k].price)
    ensures Crosses(t.side, t.limit, live[0].price)
  {
    assert Earlier(t.side.Opposite(), live[0], live[k]);
  }

  lemma TailInPriority(live: seq<Resting>, s: Side)
    requires InPriority(s, live) && live != []
    ensures InPriority(s, live[1..])
  {
  }

  // `CancelNewest` takes the taker off; `DecrementAndCancel` does when the taker is the smaller.
  predicate TakerGoes(policy: StpPolicy, left: nat, resting: nat) {
    match policy
    case Off => false
    case CancelNewest => true
    case CancelOldest => false
    case DecrementAndCancel => left < resting
  }

  // `CancelOldest` takes the resting order off; `DecrementAndCancel` does when it is no larger.
  predicate RestingGoes(policy: StpPolicy, left: nat, resting: nat) {
    match policy
    case Off => false
    case CancelNewest => false
    case CancelOldest => true
    case DecrementAndCancel => resting <= left
  }

  lemma WalkMeetsOwn(live: seq<Resting>, t: Taker, policy: StpPolicy, o: nat, k: nat, front: nat)
    requires InPriority(t.side.Opposite(), live) && t.owner == Some(o)
    requires MeetsOwn(live, t.side, t.limit, t.left, o, k) && front == SumQuantity(live[..k])
    ensures TakerGoes(policy, t.left - front, live[k].quantity) ==>
              After(live, t, policy, k, Outcome([], 0, live[k..], true))
    ensures RestingGoes(policy, t.left - front, live[k].quantity) ==>
              After(live, t, policy, k, Greedy(live[k + 1..], t.(left := t.left - front), policy))
  {
    WalkPast(live, t, policy, k, front);
    assert live[k..][0] == live[k] && live[k..][1..] == live[k + 1..];
  }

  // A first own order that takes the taker off leaves nothing to cancel.
  lemma {:induction false} YieldIsSafe(live: seq<Resting>, t: Taker, policy: StpPolicy, o: nat, k: nat,
                                       orders: OrderMap)
    requires t.owner == Some(o) && MeetsOwn(live, t.side, t.limit, t.left, o, k)
    requires TakerGoes(policy, t.left - SumQuantity(live[..k]), live[k].quantity)
    ensures StpSafe(live, t, policy, orders)
    decreases k
  {
    if k > 0 && Reaches(live, t) {
      var h, tail := live[0], live[1..];
      assert live[..k][0] == h && live[..k][1..] == tail[..k - 1];
      assert h in live[..k];
      assert forall r | r in tail[..k - 1] :: r in live[..k];
      YieldIsSafe(tail, t.(left := t.left - h.quantity), policy, o, k - 1, orders);
    }
  }

  // The first `k` trades are with the first `k` orders, each for all it has and at its price.
  ghost predicate TradedWhole(trades: seq<Trade>, live: seq<Resting>, k: nat) {
    k <= |trades| && k <= |live| &&
    forall j | 0 <= j < k ::
      trades[j].passive == live[j].id && trades[j].price == live[j].price && trades[j].quantity == live[j].quantity
  }

  lemma TradesStartWhole(b: BookState, id: OrderId, s: Side, live: seq<Resting>, k: nat, fills: seq<Fill>)
    requires k <= |live|
    ensures TradedWhole(TradesOf(WholeFills(live[..k]) + fills, b.nextTradeId, b.nextTimestamp + 1, id, s), live, k)
    ensures Volume(WholeFills(live[..k]) + fills) == SumQuantity(live[..k]) + Volume(fills)
  {
    WholeFillsAre(live[..k]);
    VolumeConcat(WholeFills(live[..k]), fills);
    TradesAreFills(WholeFills(live[..k]) + fills, b.nextTradeId, b.nextTimestamp + 1, id, s);
  }

  lemma NoVolume()
    ensures Volume([]) == 0
  {
  }

  lemma NaiveTakerGoes(nb: NaiveBook, id: OrderId, s: Side, price: Price, quantity: nat, tif: TimeInForce, o: nat,
                       policy: StpPolicy, live: seq<Resting>, k: nat, front: nat)
    requires live == nb.On(s.Opposite()) && InPriority(s.Opposite(), live)
    requires MeetsOwn(live, s, price, quantity, o, k) && front == SumQuantity(live[..k])
    requires TakerGoes(policy, quantity - front, live[k].quantity)
    requires tif.FOK? ==> quantity <= Crossing(live, s, price)
    ensures SubmitNaively(nb, id, s, price, quantity, tif, Some(o), policy) ==
            NaiveResult(nb.With(s.Opposite(), live[k..]), WholeFills(live[..k]) + [],
                        if front > 0 then PartiallyFilled else Cancelled, front, 0, quantity - front)
  {
    hide Greedy, InPriority, Crossing, SumQuantity;
    WalkMeetsOwn(live, Taker(s, price, quantity, Some(o)), policy, o, k, front);
    WholeFillsAre(live[..k]);
    VolumeConcat(WholeFills(live[..k]), []);
    NoVolume();
  }

  lemma NaiveRestingGoes(nb: NaiveBook, id: OrderId, s: Side, price: Price, quantity: nat, tif: TimeInForce, o: nat,
                         policy: StpPolicy, live: seq<Resting>, k: nat, front: nat)
    requires live == nb.On(s.Opposite()) && InPriority(s.Opposite(), live)
    requires MeetsOwn(live, s, price, quantity, o, k) && front == SumQuantity(live[..k])
    requires RestingGoes(policy, quantity - front, live[k].quantity)
    requires tif.FOK? ==> quantity <= Crossing(live, s, price)
    ensures var r := SubmitNaively(nb, id, s, price, quantity, tif, Some(o), policy);
            var n := SubmitNaively(nb.With(s.Opposite(), live[k + 1..]), id, s, price, quantity - front,
                                   if tif.GTC? then GTC else IOC, Some(o), policy);
            && r.book == n.book && r.fills == WholeFills(live[..k]) + n.fills
            && r.filled == front + n.filled && r.resting == n.resting && r.cancelled == n.cancelled
  {
    hide Greedy, InPriority, Crossing, SumQuantity;
    var t := Taker(s, price, quantity, Some(o));
    WalkMeetsOwn(live, t, policy, o, k, front);
    var rest := Greedy(live[k + 1..], t.(left := quantity - front), policy);
    assert t.(left := quantity - front) == Taker(s, price, quantity - front, Some(o));
    WholeFillsAre(live[..k]);
    VolumeConcat(WholeFills(live[..k]), rest.fills);
    assert nb.With(s.Opposite(), live[k + 1..]).With(s.Opposite(), rest.book) == nb.With(s.Opposite(), rest.book);
  }

  /** Meeting an own order that takes the taker off: the strangers in front trade whole, the rest of
      the taker is given up, whatever its time in force, and the own order and all behind it stand. */
  lemma TakerIsTakenOff(ex: ExchangeState, s: Side, price: Price, quantity: nat, tif: TimeInForce, o: nat, k: nat)
    requires GoodExchange(ex) && MeetsOwn(View(ex.book).On(s.Opposite()), s, price, quantity, o, k)
    requires !FokRejected(ex.book, s, price, quantity, tif)
    requires var live := View(ex.book).On(s.Opposite());
             TakerGoes(ex.policy, quantity - SumQuantity(live[..k]), live[k].quantity)
    ensures SubmitSafe(ex.book, s, price, quantity, Some(o), ex.policy)
    ensures var live := View(ex.book).On(s.Opposite());
            var (next, r) := Submit(ex, s, price, quantity, tif, Some(o));
            && r.filled == SumQuantity(live[..k]) && |r.trades| == k && TradedWhole(r.trades, live, k)
            && r.resting == 0 && r.cancelled == quantity - r.filled
            && r.status == (if r.filled > 0 then PartiallyFilled else Cancelled)
            && View(next.book) == View(ex.book).With(s.Opposite(), live[k..])
  {
    hide GoodExchange, GoodBook, Submit, SubmitNaively, Strangers, StpSafe, InPriority, AvailableToFill, Greedy;
    hide Crossing, TradesOf, Volume, WholeFills, SumQuantity, TradedWhole, Live;
    var live := View(ex.book).On(s.Opposite());
    var front, id := SumQuantity(live[..k]), ex.book.nextOrderId;
    GoodExchangeBook(ex);
    YieldIsSafe(live, Taker(s, price, quantity, Some(o)), ex.policy, o, k, ex.book.orders);
    SubmitIsNaive(ex, s, price, quantity, tif, Some(o));
    Available(ex.book, s, price);
    SideInPriority(ex.book, s.Opposite());
    NaiveTakerGoes(View(ex.book), id, s, price, quantity, tif, o, ex.policy, live, k, front);
    TradesStartWhole(ex.book, id, s, live, k, []);
    TradesAreFills(WholeFills(live[..k]) + [], ex.book.nextTradeId, ex.book.nextTimestamp + 1, id, s);
  }

  /** Meeting an own order that comes off: the strangers in front trade whole, and what is left goes
      on as a submission of its own against the list behind that order. */
  lemma OwnOrderIsTakenOff(ex: ExchangeState, s: Side, price: Price, quantity: nat, tif: TimeInForce, o: nat, k: nat)
    requires GoodExchange(ex) && MeetsOwn(View(ex.book).On(s.Opposite()), s, price, quantity, o, k)
    requires !FokRejected(ex.book, s, price, quantity, tif)
    requires SubmitSafe(ex.book, s, price, quantity, Some(o), ex.policy)
    requires var live := View(ex.book).On(s.Opposite());
             RestingGoes(ex.policy, quantity - SumQuantity(live[..k]), live[k].quantity)
    ensures var live := View(ex.book).On(s.Opposite());
            var (next, r) := Submit(ex, s, price, quantity, tif, Some(o));
            var front := SumQuantity(live[..k]);
            var n := SubmitNaively(View(ex.book).With(s.Opposite(), live[k + 1..]), r.orderId, s, price,
                                   quantity - front, if tif.GTC? then GTC else IOC, Some(o), ex.policy);
            && r.filled == front + n.filled && TradedWhole(r.trades, live, k)
            && r.resting == n.resting && r.cancelled == n.cancelled
            && View(next.book) == n.book
  {
    hide GoodExchange, GoodBook, Submit, SubmitNaively, Strangers, StpSafe, InPriority, AvailableToFill, Greedy;
    hide Crossing, TradesOf, Volume, WholeFills, SumQuantity, TradedWhole, Live;
    var live := View(ex.book).On(s.Opposite());
    var front, id := SumQuantity(live[..k]), ex.book.nextOrderId;
    var rest := SubmitNaively(View(ex.book).With(s.Opposite(), live[k + 1..]), id, s, price, quantity - front,
                              if tif.GTC? then GTC else IOC, Some(o), ex.policy);
    GoodExchangeBook(ex);
    SubmitIsNaive(ex, s, price, quantity, tif, Some(o));
    Available(ex.book, s, price);
    SideInPriority(ex.book, s.Opposite());
    NaiveRestingGoes(View(ex.book), id, s, price, quantity, tif, o, ex.policy, live, k, front);
    TradesStartWhole(ex.book, id, s, live, k, rest.fills);
  }
}
