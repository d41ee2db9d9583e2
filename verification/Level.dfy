/** The level as the engine keeps it: one queue edited in place, with cached counters. */
module EngineLevel {
  import opened Types
  import opened LevelModel

  function Shifted(index: Option<nat>, shift: nat): Option<nat> {
    if index.None? then None else Some(index.value + shift)
  }

  class Level {
    const price: Price
    var orders: seq<OrderId>
    var total: nat
    var tombstones: int

    ghost function Abs(): LevelState
      reads this
    {
      LevelState(price, orders, total, tombstones)
    }

    constructor (price: Price)
      ensures Abs() == NewLevel(price)
    {
      this.price := price;
      orders, total, tombstones := [], 0, 0;
    }

    // The next order to fill; pops the tombstones in front of it.
    method Front() returns (id: Option<OrderId>)
      modifies this
      ensures Abs() == PurgeFront(old(Abs()))
      ensures id == FrontId(old(Abs()))
    {
      while orders != []
        invariant Purge(orders) == Purge(old(orders))
        invariant tombstones == old(tombstones) - (|old(orders)| - |orders|)
        invariant total == old(total)
        decreases |orders|
      {
        if orders[0] == TOMBSTONE {
          orders := orders[1..];
          tombstones := tombstones - 1;
        } else {
          return Some(orders[0]);
        }
      }
      return None;
    }

    method PushBack(id: OrderId, quantity: nat)
      requires id != TOMBSTONE
      modifies this
      ensures Abs() == LevelModel.PushBack(old(Abs()), id, quantity)
    {
      orders := orders + [id];
      total := total + quantity;
    }

    method PopFront(quantity: nat) returns (id: Option<OrderId>)
      modifies this
      ensures Abs() == LevelModel.PopFront(old(Abs()), quantity)
      ensures id == FrontId(old(Abs()))
    {
      while orders != []
        invariant Purge(orders) == Purge(old(orders))
        invariant tombstones == old(tombstones) - (|old(orders)| - |orders|)
        invariant total == old(total)
        decreases |orders|
      {
        var first := orders[0];
        orders := orders[1..];
        if first == TOMBSTONE {
          tombstones := tombstones - 1;
        } else {
          total := SatSub(total, quantity);
          return Some(first);
        }
      }
      return None;
    }

    method MarkTombstone(index: nat, quantity: nat)
      modifies this
      ensures Abs() == LevelModel.MarkTombstone(old(Abs()), index, quantity)
    {
      if index < |orders| && orders[index] != TOMBSTONE {
        orders := orders[index := TOMBSTONE];
        total := SatSub(total, quantity);
        tombstones := tombstones + 1;
      }
    }

    method Remove(id: OrderId, quantity: nat) returns (found: bool)
      modifies this
      ensures Abs() == LevelModel.Remove(old(Abs()), id, quantity)
      ensures found <==> id in old(orders)
    {
      hide IndexOf, SatSub;
      var k := 0;
      while k < |orders| && orders[k] != id
        invariant k <= |orders| && Abs() == old(Abs())
        invariant IndexOf(orders, id) == Shifted(IndexOf(orders[k..], id), k)
      {
        k := k + 1;
      }
      found := k < |orders|;
      if found {
        orders := orders[..k] + orders[k + 1..];
        total := SatSub(total, quantity);
      }
    }

    method Compact()
      modifies this
      ensures Abs() == LevelModel.Compact(old(Abs()))
    {
      if tombstones == 0 {
        return;
      }
      var kept := [];
      for k := 0 to |orders|
        invariant Abs() == old(Abs())
        invariant kept == LiveIds(orders[..k])
      {
        LiveConcat(orders[..k], [orders[k]]);
        assert orders[..k + 1] == orders[..k] + [orders[k]];
        if orders[k] != TOMBSTONE {
          kept := kept + [orders[k]];
        }
      }
      assert orders[..|orders|] == orders;
      assert kept == LiveIds(orders);
      orders := kept;
      tombstones := 0;
    }

    method DecreaseQuantity(amount: nat)
      modifies this
      ensures Abs() == LevelModel.DecreaseQuantity(old(Abs()), amount)
    {
      total := SatSub(total, amount);
    }
  }
}
