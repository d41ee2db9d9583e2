/** The stop book as the engine keeps it: two price indexes edited in place. */
module EngineStops {
  import opened Types
  import opened PriceKeys
  import opened StopModel

  lemma {:induction false} TriggerAllConcat(orders: StopMap, a: seq<OrderId>, b: seq<OrderId>)
    ensures TriggerAll(orders, a + b).0 == TriggerAll(TriggerAll(orders, a).0, b).0
    ensures TriggerAll(orders, a + b).1 == TriggerAll(orders, a).1 + TriggerAll(TriggerAll(orders, a).0, b).1
    decreases |a|
  {
    if a == [] {
      assert a + b == b;
    } else {
      assert (a + b)[1..] == a[1..] + b;
      if IsPending(orders, a[0]) {
        TriggerAllConcat(orders[a[0] := orders[a[0]].(status := Triggered)], a[1..], b);
      } else {
        TriggerAllConcat(orders, a[1..], b);
      }
    }
  }

  lemma {:induction false} BucketsConcat(a: seq<Price>, b: seq<Price>, index: StopIndex)
    ensures Buckets(a + b, index) == Buckets(a, index) + Buckets(b, index)
  {
    if a == [] {
      assert a + b == b;
    } else {
      assert (a + b)[1..] == a[1..] + b;
      BucketsConcat(a[1..], b, index);
    }
  }

  lemma SameIndex(a: StopIndex, b: StopIndex)
    requires a.Keys == b.Keys && forall p | p in a :: a[p] == b[p]
    ensures a == b
  {
    assert forall p | p in a :: p in b && a[p] == b[p];
  }

  // The keys of a range scan, ascending.
  method KeysAscending(keys: set<Price>) returns (sorted: seq<Price>)
    ensures sorted == SortedKeys(Sell, keys)
  {
    var todo := keys;
    sorted := [];
    while todo != {}
      invariant sorted + SortedKeys(Sell, todo) == SortedKeys(Sell, keys)
      decreases |todo|
    {
      BestExists(Sell, todo);
      var p :| p in todo && forall q | q in todo && q != p :: Better(Sell, p, q);
      BestIsUnique(Sell, todo, p);
      sorted := sorted + [p];
      todo := todo - {p};
    }
  }

  function KeySet(keys: seq<Price>): set<Price> {
    set p | p in keys
  }

  // What taking the bucket at `keys[k]` adds to taking those before it.
  lemma OneMoreBucket(orders: StopMap, index: StopIndex, keys: seq<Price>, k: nat)
    requires k < |keys|
    ensures KeySet(keys[..k + 1]) == KeySet(keys[..k]) + {keys[k]}
    ensures var before := TriggerAll(orders, Buckets(keys[..k], index));
            var bucket := if keys[k] in index then index[keys[k]] else [];
            var both := TriggerAll(orders, Buckets(keys[..k + 1], index));
            && both.0 == TriggerAll(before.0, bucket).0
            && both.1 == before.1 + TriggerAll(before.0, bucket).1
  {
    assert keys[..k + 1] == keys[..k] + [keys[k]];
    BucketsConcat(keys[..k], [keys[k]], index);
    TriggerAllConcat(orders, Buckets(keys[..k], index), Buckets([keys[k]], index));
    assert Buckets([keys[k]], index) == if keys[k] in index then index[keys[k]] else [];
  }

  class StopBook {
    var buys: StopIndex
    var sells: StopIndex
    var orders: StopMap
    var trailing: seq<OrderId>
    var changes: seq<int>
    var last: Option<Price>

    ghost function Abs(): StopState
      reads this
    {
      StopState(buys, sells, orders, trailing, changes, last)
    }

    constructor ()
      ensures Abs() == NewStops()
    {
      buys, sells, orders, trailing, changes, last := map[], map[], map[], [], [], None;
    }

    method Insert(o: StopOrder)
      modifies this
      ensures Abs() == StopModel.Insert(old(Abs()), o)
    {
      if o.side.Buy? {
        buys := IndexAdd(buys, o.stopPrice, o.id);
      } else {
        sells := IndexAdd(sells, o.stopPrice, o.id);
      }
      orders := orders[o.id := o];
      if o.trail.Some? {
        trailing := trailing + [o.id];
      }
    }

    method Cancel(id: OrderId) returns (cancelled: bool)
      modifies this
      ensures Abs() == Withdraw(old(Abs()), id).0 && cancelled == Withdraw(old(Abs()), id).1
    {
      if id !in orders || !orders[id].status.Pending? {
        return false;
      }
      var o := orders[id];
      orders := orders[id := o.(status := Withdrawn)];
      if o.side.Buy? {
        buys := IndexDrop(buys, o.stopPrice, id);
      } else {
        sells := IndexDrop(sells, o.stopPrice, id);
      }
      trailing := Retain(trailing, id);
      return true;
    }

    // Marks one bucket's pending ids and hands them out.
    method TriggerBucket(ids: seq<OrderId>) returns (hit: seq<StopOrder>)
      modifies this`orders
      ensures orders == TriggerAll(old(orders), ids).0 && hit == TriggerAll(old(orders), ids).1
    {
      hit := [];
      for k := 0 to |ids|
        invariant orders == TriggerAll(old(orders), ids[..k]).0 && hit == TriggerAll(old(orders), ids[..k]).1
      {
        TriggerAllConcat(old(orders), ids[..k], [ids[k]]);
        assert ids[..k + 1] == ids[..k] + [ids[k]];
        if ids[k] in orders && orders[ids[k]].status.Pending? {
          orders := orders[ids[k] := orders[ids[k]].(status := Triggered)];
          hit := hit + [orders[ids[k]]];
        }
      }
      assert ids[..|ids|] == ids;
    }

    // Takes the buckets at `keys` out of an index, in order, and marks their ids.
    method TriggerBuckets(index: StopIndex, keys: seq<Price>) returns (left: StopIndex, hit: seq<StopOrder>)
      requires forall i, j | 0 <= i < j < |keys| :: keys[i] != keys[j]
      modifies this`orders
      ensures left == index - KeySet(keys)
      ensures orders == TriggerAll(old(orders), Buckets(keys, index)).0
      ensures hit == TriggerAll(old(orders), Buckets(keys, index)).1
    {
      left, hit := index, [];
      SameIndex(left, index - KeySet([]));
      for k := 0 to |keys|
        invariant left == index - KeySet(keys[..k])
        invariant orders == TriggerAll(old(orders), Buckets(keys[..k], index)).0
        invariant hit == TriggerAll(old(orders), Buckets(keys[..k], index)).1
      {
        OneMoreBucket(old(orders), index, keys, k);
        if keys[k] in left {
          var more := TriggerBucket(left[keys[k]]);
          hit := hit + more;
          left := left - {keys[k]};
        }
        SameIndex(left, index - KeySet(keys[..k + 1]));
      }
      assert keys[..|keys|] == keys;
    }

    // Takes every bucket a trade at `p` reaches out of one side's index.
    method TriggerReached(index: StopIndex, s: Side, p: Price) returns (left: StopIndex, hit: seq<StopOrder>)
      modifies this`orders
      ensures left == index - ReachedSet(index, s, p)
      ensures orders == TriggerAll(old(orders), Buckets(ReachedKeys(index, s, p), index)).0
      ensures hit == TriggerAll(old(orders), Buckets(ReachedKeys(index, s, p), index)).1
    {
      var keys := KeysAscending(ReachedSet(index, s, p));
      SortedKeysFacts(Sell, ReachedSet(index, s, p));
      assert KeySet(keys) == ReachedSet(index, s, p);
      left, hit := TriggerBuckets(index, keys);
    }

    method CollectTriggered(p: Price) returns (hit: seq<StopOrder>)
      modifies this
      ensures Abs() == StopModel.CollectTriggered(old(Abs()), p).0
      ensures hit == StopModel.CollectTriggered(old(Abs()), p).1
    {
      TriggerAllConcat(orders, Buckets(ReachedKeys(buys, Buy, p), buys), Buckets(ReachedKeys(sells, Sell, p), sells));
      var bought, sold;
      buys, bought := TriggerReached(buys, Buy, p);
      sells, sold := TriggerReached(sells, Sell, p);
      hit := bought + sold;
      if hit != [] {
        trailing := StillPending(trailing, orders);
      }
      hit := SortByTime(hit);
    }

    method RecordPrice(p: Price)
      modifies this`changes, this`last
      ensures Abs() == StopModel.RecordPrice(old(Abs()), p)
    {
      if last.Some? {
        changes := changes + [StopModel.Abs(p - last.value)];
        if |changes| > MAX_PRICE_HISTORY {
          changes := changes[|changes| - MAX_PRICE_HISTORY..];
        }
      }
      last := Some(p);
    }

    // Moves one trailing stop, re-indexing it when its price changes.
    method MoveOne(id: OrderId, p: Price)
      modifies this
      ensures Abs() == StopModel.MoveOne(old(Abs()), id, p)
    {
      if id !in orders || !orders[id].status.Pending? || orders[id].trail.None? {
        return;
      }
      var o := orders[id];
      var watermark := Watermark(o, p);
      var offset := Offset(o.trail.value, watermark, changes);
      if offset <= 0 {
        orders := orders[id := o.(watermark := Some(watermark))];
        return;
      }
      var newStop := TrailedPrice(o.side, watermark, offset);
      if Tightens(o.side, o.stopPrice, newStop) {
        if o.side.Buy? {
          buys := IndexAdd(IndexDrop(buys, o.stopPrice, id), newStop, id);
        } else {
          sells := IndexAdd(IndexDrop(sells, o.stopPrice, id), newStop, id);
        }
        orders := orders[id := o.(stopPrice := newStop, watermark := Some(watermark))];
      } else {
        orders := orders[id := o.(watermark := Some(watermark))];
      }
    }

    method UpdateTrailingStops(p: Price)
      modifies this
      ensures Abs() == UpdateTrailing(old(Abs()), p)
    {
      RecordPrice(p);
      var ids := trailing;
      ghost var target := MoveAll(Abs(), ids, p);
      for k := 0 to |ids|
        invariant MoveAll(Abs(), ids[k..], p) == target
      {
        assert ids[k..][1..] == ids[k + 1..];
        MoveOne(ids[k], p);
      }
    }

    method ClearHistory()
      modifies this
      ensures Abs() == ClearStopHistory(old(Abs()))
    {
      orders := map id | id in orders && orders[id].status.Pending? :: orders[id];
      trailing := KeptIds(trailing, orders);
    }

    function ContainsPending(id: OrderId): bool
      reads this
    {
      IsPending(orders, id)
    }
  }

  // `retain` by presence on record.
  function KeptIds(ids: seq<OrderId>, orders: StopMap): (r: seq<OrderId>)
    ensures (forall id | id in orders :: orders[id].status.Pending?) ==> r == StillPending(ids, orders)
  {
    if ids == [] then []
    else (if ids[0] in orders then [ids[0]] else []) + KeptIds(ids[1..], orders)
  }
}
