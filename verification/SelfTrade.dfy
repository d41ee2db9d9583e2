/** Exactly when self-trade prevention stops a submission, and what that does to fill or kill. */
module SelfTrade {
  import opened Types
  import opened PriceKeys
  import opened SideModel
  import opened BookModel
  import opened PriceTime
  import opened Matching
  import opened Liquidity
  import opened ExchangeModel
  import opened Submission
  import opened ExchangeSafety
  import opened Guarantees

  // What other owners offer within the limit.
  function Others(live: seq<Resting>, t: Taker, policy: StpPolicy): nat {
    if live == [] then 0
    else
      (if Crosses(t.side, t.limit, live[0].price) && !Conflict(policy, t.owner, live[0].owner)
       then live[0].quantity else 0) + Others(live[1..], t, policy)
  }

  // The taker would still be open on meeting its own order `k`, and the policy takes
  // the taker's side of the pair off.
  predicate YieldsAt(live: seq<Resting>, t: Taker, policy: StpPolicy, k: nat) {
    && k < |live|
    && Conflict(policy, t.owner, live[k].owner) && Crosses(t.side, t.limit, live[k].price)
    && Others(live[..k], t, policy) < t.left
    && TakerYields(policy, t.left - Others(live[..k], t, policy), live[k].quantity)
  }

  ghost predicate Yields(live: seq<Resting>, t: Taker, policy: StpPolicy) {
    exists k: nat :: YieldsAt(live, t, policy, k)
  }

  lemma OthersHead(live: seq<Resting>, t: Taker, policy: StpPolicy, k: nat)
    requires k < |live|
    ensures live[..k + 1][0] == live[0] && live[..k + 1][1..] == live[1..][..k]
    ensures Others(live[..k + 1], t, policy) == Others(live[..1], t, policy) + Others(live[1..][..k], t, policy)
  {
    assert live[..k + 1][1..] == live[1..][..k];
    assert Others(live[..1][1..], t, policy) == 0;
  }

  // Looking past the head: what the head offers comes off the taker first.
  lemma YieldsPastHead(live: seq<Resting>, t: Taker, policy: StpPolicy, rest: Taker)
    requires live != [] && !YieldsAt(live, t, policy, 0)
    requires Others(live[..1], t, policy) <= t.left
    requires rest == t.(left := t.left - Others(live[..1], t, policy))
    ensures Yields(live, t, policy) <==> Yields(live[1..], rest, policy)
  {
    forall k: nat ensures YieldsAt(live, t, policy, k + 1) <==> YieldsAt(live[1..], rest, policy, k) {
      if k + 1 < |live| {
        OthersHead(live, t, policy, k);
        OthersFrame(live[1..][..k], t, rest, policy);
      }
    }
    if Yields(live, t, policy) {
      var k: nat :| YieldsAt(live, t, policy, k);
      assert YieldsAt(live[1..], rest, policy, k - 1);
    }
    if Yields(live[1..], rest, policy) {
      var k: nat :| YieldsAt(live[1..], rest, policy, k);
      assert YieldsAt(live, t, policy, k + 1);
    }
  }

  lemma {:induction false} OthersFrame(live: seq<Resting>, t1: Taker, t2: Taker, policy: StpPolicy)
    requires t1 == t2.(left := t1.left)
    ensures Others(live, t1, policy) == Others(live, t2, policy)
  {
    if live != [] {
      OthersFrame(live[1..], t1, t2, policy);
    }
  }

  lemma {:induction false} NoneCross(live: seq<Resting>, t: Taker, policy: StpPolicy)
    requires forall r | r in live :: !Crosses(t.side, t.limit, r.price)
    ensures Others(live, t, policy) == 0 && !Yields(live, t, policy)
  {
    if live != [] {
      assert live[0] in live;
      NoneCross(live[1..], t, policy);
    }
    forall k: nat ensures !YieldsAt(live, t, policy, k) {
      if k < |live| {
        assert live[k] in live;
      }
    }
  }

  lemma {:induction false} OthersGrow(live: seq<Resting>, t: Taker, policy: StpPolicy, k: nat)
    requires 1 <= k <= |live|
    ensures Others(live[..1], t, policy) <= Others(live[..k], t, policy)
  {
    OthersHead(live, t, policy, k - 1);
  }

  /** The walk is stopped exactly when some own order yields; otherwise it trades the
      smaller of what is asked and what others offer. */
  lemma {:induction false} GreedyStopsIff(live: seq<Resting>, t: Taker, policy: StpPolicy)
    requires InPriority(t.side.Opposite(), live)
    ensures var g := Greedy(live, t, policy);
            && (g.stopped <==> Yields(live, t, policy))
            && (!g.stopped ==> Volume(g.fills) == Min(t.left, Others(live, t, policy)))
    decreases |live|, 1
  {
    if live == [] || t.left == 0 {
      forall k: nat ensures !YieldsAt(live, t, policy, k) {
      }
    } else if !Crosses(t.side, t.limit, live[0].price) {
      NoneCrossBehind(live, t);
      NoneCross(live, t, policy);
    } else {
      GreedyStopsStep(live, t, policy);
    }
  }

  lemma NoneCrossBehind(live: seq<Resting>, t: Taker)
    requires InPriority(t.side.Opposite(), live) && live != []
    requires !Crosses(t.side, t.limit, live[0].price)
    ensures forall r | r in live :: !Crosses(t.side, t.limit, r.price)
  {
    forall r | r in live ensures !Crosses(t.side, t.limit, r.price) {
      var j :| 0 <= j < |live| && live[j] == r;
      if j > 0 {
        assert Earlier(t.side.Opposite(), live[0], live[j]);
      }
    }
  }

  lemma {:induction false} GreedyStopsStep(live: seq<Resting>, t: Taker, policy: StpPolicy)
    requires InPriority(t.side.Opposite(), live) && Reaches(live, t)
    ensures var g := Greedy(live, t, policy);
            && (g.stopped <==> Yields(live, t, policy))
            && (!g.stopped ==> Volume(g.fills) == Min(t.left, Others(live, t, policy)))
    decreases |live|, 0
  {
    hide Earlier;
    var h, rest := live[0], live[1..];
    assert live[..0] == [] && live[..1] == [h];
    assert Others([h], t, policy) == if Conflict(policy, t.owner, h.owner) then 0 else h.quantity;
    if Conflict(policy, t.owner, h.owner) {
      if TakerYields(policy, t.left, h.quantity) {
        assert YieldsAt(live, t, policy, 0);
      } else {
        GreedyStopsIff(rest, t, policy);
        YieldsPastHead(live, t, policy, t);
      }
    } else if t.left >= h.quantity {
      var t2 := t.(left := t.left - h.quantity);
      GreedyStopsIff(rest, t2, policy);
      YieldsPastHead(live, t, policy, t2);
      OthersFrame(rest, t, t2, policy);
      var g := Greedy(rest, t2, policy);
      assert ([Fill(h.id, h.price, h.quantity)] + g.fills)[1..] == g.fills;
    } else {
      forall k: nat ensures !YieldsAt(live, t, policy, k) {
        if 0 < k < |live| {
          OthersGrow(live, t, policy, k);
        }
      }
      assert Volume([Fill(h.id, h.price, t.left)]) == t.left;
    }
  }

  /** Fill or kill with an owner, under any policy: the feasibility check looks past
      owners, so an accepted order fills in full exactly when no own order makes it yield
      and others alone offer enough. */
  lemma FokFillsIff(ex: ExchangeState, s: Side, price: Price, quantity: nat, owner: Option<nat>)
    requires GoodExchange(ex)
    requires SubmitSafe(ex.book, s, price, quantity, owner, ex.policy)
    requires !FokRejected(ex.book, s, price, quantity, FOK)
    ensures var t := Taker(s, price, quantity, owner);
            var live := View(ex.book).On(s.Opposite());
            Submit(ex, s, price, quantity, FOK, owner).1.filled == quantity <==>
            !Yields(live, t, ex.policy) && Others(live, t, ex.policy) >= quantity
  {
    var t, live := Taker(s, price, quantity, owner), View(ex.book).On(s.Opposite());
    SubmitIsNaive(ex, s, price, quantity, FOK, owner);
    Available(ex.book, s, price);
    SideInPriority(ex.book, s.Opposite());
    GreedyStopsIff(live, t, ex.policy);
    GreedyConserves(live, t, ex.policy);
  }
}
