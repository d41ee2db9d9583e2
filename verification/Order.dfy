/** The order record as the engine keeps it, filled and cancelled in place. */
module EngineOrder {
  import opened Types
  import opened OrderModel

  class Order {
    const id: OrderId
    const side: Side
    const price: Price
    const original: nat
    const timestamp: nat
    const tif: TimeInForce
    var remaining: nat
    var filled: nat
    var status: OrderStatus
    var owner: Option<nat>
    var position: nat

    ghost function Abs(): OrderState
      reads this
    {
      OrderState(id, side, price, original, remaining, filled, timestamp, tif, status, owner, position)
    }

    constructor (id: OrderId, side: Side, price: Price, quantity: nat, timestamp: nat, tif: TimeInForce)
      ensures Abs() == NewOrder(id, side, price, quantity, timestamp, tif)
    {
      this.id, this.side, this.price, this.original := id, side, price, quantity;
      this.timestamp, this.tif := timestamp, tif;
      remaining, filled, status := quantity, 0, New;
      owner, position := None, 0;
    }

    // The source panics on a larger quantity.
    method Fill(quantity: nat)
      requires quantity <= remaining
      modifies this
      ensures Abs() == old(Abs()).Fill(quantity)
    {
      remaining := remaining - quantity;
      filled := filled + quantity;
      status := if remaining == 0 then Filled else PartiallyFilled;
    }

    // The source panics on a terminal order.
    method Cancel() returns (cancelled: nat)
      requires status.IsActive()
      modifies this
      ensures Abs() == old(Abs()).Cancel() && cancelled == old(remaining)
    {
      cancelled := remaining;
      remaining := 0;
      status := Cancelled;
    }

    method StpDecrement(quantity: nat)
      requires quantity <= remaining
      modifies this
      ensures Abs() == old(Abs()).StpDecrement(quantity)
    {
      remaining := remaining - quantity;
      if remaining == 0 {
        status := Cancelled;
      }
    }
  }
}
