/** What a trade price does to the stop book: which stops fire, and how trailing stops move. */
module StopTriggers {
  import opened Types
  import opened PriceKeys
  import opened StopModel

  // ---- firing ------------------------------------------------------------------

  predicate Holds(index: StopIndex, p: Price, id: OrderId) {
    p in index && id in index[p]
  }

  lemma {:induction false} BucketMembers(keys: seq<Price>, index: StopIndex)
    ensures forall id :: id in Buckets(keys, index) <==> exists p | p in keys :: Holds(index, p, id)
  {
    if keys != [] {
      BucketMembers(keys[1..], index);
      forall id ensures id in Buckets(keys, index) <==> exists p | p in keys :: Holds(index, p, id) {
        if id in Buckets(keys[1..], index) {
          var p :| p in keys[1..] && Holds(index, p, id);
          assert p in keys;
        } else if id in Buckets(keys, index) {
          assert Holds(index, keys[0], id);
        }
      }
    }
  }

  lemma ReachedAreTriggerable(b: StopState, s: Side, p: Price)
    requires GoodStops(b)
    ensures forall id :: id in Buckets(ReachedKeys(b.Index(s), s, p), b.Index(s)) <==>
              id in b.orders && b.orders[id].side == s && Triggerable(b.orders[id], p)
  {
    var index := b.Index(s);
    var keys := ReachedKeys(index, s, p);
    SortedKeysFacts(Sell, ReachedSet(index, s, p));
    BucketMembers(keys, index);
    forall id | id in Buckets(keys, index)
      ensures id in b.orders && b.orders[id].side == s && Triggerable(b.orders[id], p)
    {
      var k :| k in keys && Holds(index, k, id);
      assert WaitsAt(b.orders, id, s, k);
    }
    forall id | id in b.orders && b.orders[id].side == s && Triggerable(b.orders[id], p)
      ensures id in Buckets(keys, index)
    {
      assert IsPending(b.orders, id);
      assert b.orders[id].stopPrice in keys && Holds(index, b.orders[id].stopPrice, id);
    }
  }

  // The stored order an entry of the fired list stands for.
  predicate FiredFrom(o: StopOrder, orders: StopMap) {
    IsPending(orders, o.id) && o == orders[o.id].(status := Triggered)
  }

  ghost predicate DistinctTimes(stops: seq<StopOrder>) {
    forall i, j | 0 <= i < j < |stops| :: stops[i].timestamp != stops[j].timestamp
  }

  ghost predicate KeyedAndTimed(orders: StopMap) {
    && (forall id | id in orders :: orders[id].id == id)
    && (forall i, j | i in orders && j in orders && i != j :: orders[i].timestamp != orders[j].timestamp)
  }

  function Fire(orders: StopMap, ids: set<OrderId>): StopMap {
    map id | id in orders ::
      if id in ids && orders[id].status.Pending? then orders[id].(status := Triggered) else orders[id]
  }

  function Ids(ids: seq<OrderId>): set<OrderId> {
    set id | id in ids
  }

  lemma FireOne(orders: StopMap, ids: seq<OrderId>)
    requires ids != []
    ensures IsPending(orders, ids[0]) ==>
              Fire(orders[ids[0] := orders[ids[0]].(status := Triggered)], Ids(ids[1..])) == Fire(orders, Ids(ids))
    ensures !IsPending(orders, ids[0]) ==> Fire(orders, Ids(ids[1..])) == Fire(orders, Ids(ids))
  {
    assert ids == [ids[0]] + ids[1..];
  }

  lemma {:induction false} TriggerAllMarks(orders: StopMap, ids: seq<OrderId>)
    ensures TriggerAll(orders, ids).0 == Fire(orders, Ids(ids))
    decreases |ids|
  {
    if ids == [] {
      assert Fire(orders, Ids(ids)) == orders;
    } else {
      FireOne(orders, ids);
      if !IsPending(orders, ids[0]) {
        TriggerAllMarks(orders, ids[1..]);
      } else {
        TriggerAllMarks(orders[ids[0] := orders[ids[0]].(status := Triggered)], ids[1..]);
      }
    }
  }

  lemma {:induction false} TriggerAllReturns(orders: StopMap, ids: seq<OrderId>)
    requires KeyedAndTimed(orders)
    ensures var hit := TriggerAll(orders, ids).1;
            && (forall o | o in hit :: o.id in ids && FiredFrom(o, orders))
            && (forall id | id in ids && IsPending(orders, id) :: orders[id].(status := Triggered) in hit)
            && DistinctTimes(hit)
    decreases |ids|
  {
    if ids != [] {
      var tail := ids[1..];
      assert ids == [ids[0]] + tail;
      if !IsPending(orders, ids[0]) {
        TriggerAllReturns(orders, tail);
      } else {
        var o := orders[ids[0]].(status := Triggered);
        var orders2 := orders[ids[0] := o];
        TriggerAllReturns(orders2, tail);
        var rest := TriggerAll(orders2, tail).1;
        forall x | x in rest ensures x.id in ids && FiredFrom(x, orders) && x.timestamp != o.timestamp {
          assert FiredFrom(x, orders2);
        }
        forall id | id in ids && IsPending(orders, id)
          ensures orders[id].(status := Triggered) in [o] + rest
        {
          if id != ids[0] {
            assert IsPending(orders2, id) && id in tail;
          }
        }
      }
    }
  }

  ghost predicate TimeOrdered(stops: seq<StopOrder>) {
    forall i, j | 0 <= i < j < |stops| :: stops[i].timestamp <= stops[j].timestamp
  }

  lemma {:induction false} InsertByTimePermutes(o: StopOrder, sorted: seq<StopOrder>)
    ensures multiset(InsertByTime(o, sorted)) == multiset(sorted) + multiset{o}
  {
    if sorted != [] && o.timestamp > sorted[0].timestamp {
      assert sorted == [sorted[0]] + sorted[1..];
      InsertByTimePermutes(o, sorted[1..]);
    }
  }

  lemma {:induction false} InsertByTimeAfter(o: StopOrder, sorted: seq<StopOrder>, t: nat)
    requires t <= o.timestamp && forall k | 0 <= k < |sorted| :: t <= sorted[k].timestamp
    ensures forall k | 0 <= k < |InsertByTime(o, sorted)| :: t <= InsertByTime(o, sorted)[k].timestamp
  {
    if sorted != [] && o.timestamp > sorted[0].timestamp {
      InsertByTimeAfter(o, sorted[1..], t);
    }
  }

  lemma {:induction false} InsertByTimeFacts(o: StopOrder, sorted: seq<StopOrder>)
    requires TimeOrdered(sorted)
    ensures TimeOrdered(InsertByTime(o, sorted))
    ensures multiset(InsertByTime(o, sorted)) == multiset(sorted) + multiset{o}
  {
    InsertByTimePermutes(o, sorted);
    if sorted != [] && o.timestamp > sorted[0].timestamp {
      InsertByTimeFacts(o, sorted[1..]);
      InsertByTimeAfter(o, sorted[1..], sorted[0].timestamp);
    }
  }

  lemma {:induction false} SortByTimeFacts(stops: seq<StopOrder>)
    ensures TimeOrdered(SortByTime(stops))
    ensures multiset(SortByTime(stops)) == multiset(stops)
  {
    if stops != [] {
      SortByTimeFacts(stops[1..]);
      InsertByTimeFacts(stops[0], SortByTime(stops[1..]));
      assert stops == [stops[0]] + stops[1..];
    }
  }

  lemma {:induction false} DistinctSurvivesSort(stops: seq<StopOrder>)
    requires DistinctTimes(stops)
    ensures DistinctTimes(SortByTime(stops))
  {
    if stops != [] {
      var tail := stops[1..];
      DistinctSurvivesSort(tail);
      SortByTimeFacts(tail);
      var sorted := SortByTime(tail);
      forall x | x in sorted ensures x.timestamp != stops[0].timestamp {
        assert x in multiset(sorted);
        assert x in tail;
      }
      InsertKeepsDistinct(stops[0], sorted);
    }
  }

  lemma {:induction false} InsertKeepsDistinct(o: StopOrder, sorted: seq<StopOrder>)
    requires DistinctTimes(sorted) && forall x | x in sorted :: x.timestamp != o.timestamp
    ensures DistinctTimes(InsertByTime(o, sorted))
    ensures forall x :: x in InsertByTime(o, sorted) <==> x == o || x in sorted
  {
    if sorted == [] || o.timestamp <= sorted[0].timestamp {
    } else {
      var tail := sorted[1..];
      assert sorted == [sorted[0]] + tail;
      InsertKeepsDistinct(o, tail);
      forall x | x in InsertByTime(o, tail) ensures x.timestamp != sorted[0].timestamp {
        if x != o {
          var j :| 0 <= j < |tail| && tail[j] == x;
          assert sorted[j + 1] == x;
        }
      }
    }
  }

  ghost predicate StrictlyByTime(stops: seq<StopOrder>) {
    forall i, j | 0 <= i < j < |stops| :: stops[i].timestamp < stops[j].timestamp
  }

  function TriggerableIds(orders: StopMap, p: Price): set<OrderId> {
    set id | id in orders && Triggerable(orders[id], p)
  }

  lemma ReachedIdsExact(b: StopState, p: Price)
    requires GoodStops(b)
    ensures Ids(ReachedIds(b, p)) == TriggerableIds(b.orders, p)
    ensures forall id :: id in ReachedIds(b, p) <==> id in TriggerableIds(b.orders, p)
  {
    ReachedAreTriggerable(b, Buy, p);
    ReachedAreTriggerable(b, Sell, p);
  }

  // The list handed out is exactly the triggerable stops, each once.
  ghost predicate Fired(hit: seq<StopOrder>, orders: StopMap, p: Price) {
    && (forall id | id in TriggerableIds(orders, p) :: orders[id].(status := Triggered) in hit)
    && (forall o | o in hit :: o.id in TriggerableIds(orders, p) && FiredFrom(o, orders))
    && DistinctTimes(hit)
  }

  lemma CollectRaw(b: StopState, p: Price)
    requires GoodStops(b)
    ensures Fired(TriggerAll(b.orders, ReachedIds(b, p)).1, b.orders, p)
    ensures TriggerAll(b.orders, ReachedIds(b, p)).0 == Fire(b.orders, TriggerableIds(b.orders, p))
  {
    ReachedIdsExact(b, p);
    TriggerAllMarks(b.orders, ReachedIds(b, p));
    TriggerAllReturns(b.orders, ReachedIds(b, p));
  }

  lemma SortedFired(hit: seq<StopOrder>, orders: StopMap, p: Price)
    requires Fired(hit, orders, p)
    ensures Fired(SortByTime(hit), orders, p) && StrictlyByTime(SortByTime(hit))
    ensures SortByTime(hit) == [] <==> hit == []
  {
    SortByTimeFacts(hit);
    DistinctSurvivesSort(hit);
    var sorted := SortByTime(hit);
    forall o ensures o in sorted <==> o in hit {
      assert o in multiset(sorted) <==> o in multiset(hit);
    }
    assert |multiset(sorted)| == |multiset(hit)|;
  }

  /** Collecting fires exactly the pending stops the price reaches, hands them out in
      strict submission order, and leaves the others alone. */
  lemma CollectExact(b: StopState, p: Price)
    requires GoodStops(b)
    ensures CollectTriggered(b, p).0.orders == Fire(b.orders, TriggerableIds(b.orders, p))
    ensures Fired(CollectTriggered(b, p).1, b.orders, p)
    ensures StrictlyByTime(CollectTriggered(b, p).1)
    ensures CollectTriggered(b, p).1 == [] <==> TriggerableIds(b.orders, p) == {}
  {
    CollectRaw(b, p);
    SortedFired(TriggerAll(b.orders, ReachedIds(b, p)).1, b.orders, p);
    var hit := CollectTriggered(b, p).1;
    if hit != [] {
      assert hit[0].id in TriggerableIds(b.orders, p);
    }
  }

  lemma FiredIndex(b: StopState, s: Side, p: Price)
    requires GoodStops(b)
    ensures IndexExact(b.Index(s) - ReachedSet(b.Index(s), s, p), s, Fire(b.orders, TriggerableIds(b.orders, p)))
  {
    var index, orders := b.Index(s), Fire(b.orders, TriggerableIds(b.orders, p));
    var after := index - ReachedSet(index, s, p);
    forall q, id | q in after && id in after[q] ensures WaitsAt(orders, id, s, q) {
      assert q in index && WaitsAt(b.orders, id, s, q);
    }
    forall id | IsPending(orders, id) && orders[id].side == s
      ensures orders[id].stopPrice in after && id in after[orders[id].stopPrice]
    {
      assert IsPending(b.orders, id);
    }
  }

  lemma CollectKeeps(b: StopState, p: Price)
    requires GoodStops(b)
    ensures GoodStops(CollectTriggered(b, p).0)
  {
    hide Buckets, ReachedKeys, TriggerAll;
    CollectRaw(b, p);
    FiredIndex(b, Buy, p);
    FiredIndex(b, Sell, p);
    var after := CollectTriggered(b, p).0;
    StillPendingFacts(b.trailing, after.orders);
    var raw := TriggerAll(b.orders, ReachedIds(b, p)).1;
    if raw == [] {
      assert TriggerableIds(b.orders, p) == {};
      assert after.orders == b.orders;
    }
    assert TrailingExact(after);
  }
}
