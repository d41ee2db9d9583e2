/** The matching loops as a machine: one step is one turn of the inner or outer loop. */
module MatchModel {
  import opened Types
  import opened PriceKeys
  import opened OrderModel
  import opened LevelModel
  import opened SideModel
  import opened BookModel
  import opened PriceTime

  // `at` is None at the head of the outer loop and holds the level's price inside the inner one.
  datatype MatchState = MatchState(
    book: BookState,
    incoming: OrderState,
    trades: seq<Trade>,
    stpCancelled: bool,
    at: Option<Price>,
    done: bool)

  function Start(book: BookState, incoming: OrderState): MatchState {
    MatchState(book, incoming, [], false, None, false)
  }

  function PurgeAt(b: BookState, s: Side, p: Price): BookState
    requires p in b.SideOf(s).levels
  {
    b.WithSide(s, PutLevel(b.SideOf(s), p, PurgeFront(b.SideOf(s).levels[p])))
  }

  // The level and its side after `quantity` is traded against the order at its front.
  ghost function LevelTraded(sv: SideState, p: Price, quantity: nat, filled: bool): SideState
    requires p in sv.levels
  {
    if filled then PutOrDrop(sv, p, PopFront(sv.levels[p], quantity))
    else PutLevel(sv, p, DecreaseQuantity(sv.levels[p], quantity))
  }

  ghost function TradeFront(m: MatchState, p: Price, id: OrderId): MatchState
    requires id in m.book.orders && p in m.book.SideOf(m.incoming.side.Opposite()).levels
  {
    var b, s, r := m.book, m.incoming.side.Opposite(), m.book.orders[id];
    var quantity := Min(m.incoming.remaining, r.remaining);
    var trade := Trade(b.nextTradeId, p, quantity, m.incoming.id, id, m.incoming.side, b.nextTimestamp);
    var counted := b.(nextTradeId := b.nextTradeId + 1,
                      nextTimestamp := b.nextTimestamp + 1,
                      orders := b.orders[id := r.Fill(quantity)]);
    var side := LevelTraded(b.SideOf(s), p, quantity, quantity == r.remaining);
    m.(book := counted.WithSide(s, side),
       incoming := m.incoming.Fill(quantity),
       trades := m.trades + [trade])
  }

  ghost function MeetFront(m: MatchState, p: Price, id: OrderId, policy: StpPolicy): MatchState
    requires id in m.book.orders && p in m.book.SideOf(m.incoming.side.Opposite()).levels
  {
    var r := m.book.orders[id];
    if Conflict(policy, m.incoming.owner, r.owner) then
      if TakerYields(policy, m.incoming.remaining, r.remaining) then
        m.(incoming := m.incoming.StpDecrement(m.incoming.remaining), stpCancelled := true, at := None)
      else
        m.(book := CancelOrder(m.book, id).0)
    else TradeFront(m, p, id)
  }

  ghost function Step(m: MatchState, policy: StpPolicy): MatchState {
    var s := m.incoming.side.Opposite();
    var sv := m.book.SideOf(s);
    if m.done then m
    else match m.at
      case None =>
        if m.stpCancelled || m.incoming.remaining == 0 || sv.best.None? ||
           !Crosses(m.incoming.side, m.incoming.price, sv.best.value)
        then m.(done := true)
        else m.(at := sv.best)
      case Some(p) =>
        if m.incoming.remaining == 0 || p !in sv.levels then m.(at := None)
        else
          var purged := m.(book := PurgeAt(m.book, s, p));
          match FrontId(sv.levels[p])
          case None => purged.(at := None)
          case Some(id) =>
            if id in m.book.orders then MeetFront(purged, p, id, policy)
            else
              var orphaned := PutLevel(sv, p, PopFront(sv.levels[p], 0));
              m.(book := m.book.WithSide(s, orphaned))
  }

  ghost function Iterate(m: MatchState, policy: StpPolicy, n: nat): MatchState
    decreases n
  {
    if n == 0 then m else Iterate(Step(m, policy), policy, n - 1)
  }

  ghost predicate Terminates(m: MatchState, policy: StpPolicy) {
    exists n: nat :: Iterate(m, policy, n).done
  }

  /** Where the loops stop; the starting state itself when they never do. */
  ghost function Finish(m: MatchState, policy: StpPolicy): MatchState {
    if Terminates(m, policy) then
      var n: nat :| Iterate(m, policy, n).done;
      Iterate(m, policy, n)
    else m
  }

  // ---- the machine is deterministic and stops for good -------------------

  lemma {:induction false} DoneStays(m: MatchState, policy: StpPolicy, n: nat)
    requires m.done
    ensures Iterate(m, policy, n) == m
  {
    if n > 0 {
      DoneStays(m, policy, n - 1);
    }
  }

  lemma {:induction false} IterateAdds(m: MatchState, policy: StpPolicy, j: nat, k: nat)
    ensures Iterate(m, policy, j + k) == Iterate(Iterate(m, policy, j), policy, k)
    decreases j
  {
    if j > 0 {
      IterateAdds(Step(m, policy), policy, j - 1, k);
    }
  }

  lemma FinishIs(m: MatchState, policy: StpPolicy, n: nat)
    requires Iterate(m, policy, n).done
    ensures Terminates(m, policy) && Finish(m, policy) == Iterate(m, policy, n)
  {
    var k: nat :| Iterate(m, policy, k).done && Finish(m, policy) == Iterate(m, policy, k);
    if k <= n {
      IterateAdds(m, policy, k, n - k);
      DoneStays(Iterate(m, policy, k), policy, n - k);
    } else {
      IterateAdds(m, policy, n, k - n);
      DoneStays(Iterate(m, policy, n), policy, k - n);
    }
  }

  lemma FinishOfStep(m: MatchState, policy: StpPolicy)
    ensures Terminates(m, policy) <==> Terminates(Step(m, policy), policy)
    ensures Terminates(m, policy) ==> Finish(m, policy) == Finish(Step(m, policy), policy)
    ensures m.done ==> Terminates(m, policy) && Finish(m, policy) == m
  {
    if m.done {
      FinishIs(m, policy, 0);
    }
    if Terminates(m, policy) {
      var n: nat :| Iterate(m, policy, n).done;
      if n == 0 {
        FinishIs(m, policy, 0);
        FinishIs(Step(m, policy), policy, 0);
      } else {
        FinishIs(m, policy, n);
        FinishIs(Step(m, policy), policy, n - 1);
      }
    }
    if Terminates(Step(m, policy), policy) {
      var n: nat :| Iterate(Step(m, policy), policy, n).done;
      FinishIs(Step(m, policy), policy, n);
      FinishIs(m, policy, n + 1);
    }
  }
}
