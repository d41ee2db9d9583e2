/** The order record and its life cycle, as values. */
module OrderModel {
  import opened Types

  datatype OrderState = OrderState(
    id: OrderId,
    side: Side,
    price: Price,
    original: nat,
    remaining: nat,
    filled: nat,
    timestamp: nat,
    tif: TimeInForce,
    status: OrderStatus,
    owner: Option<nat>,
    position: nat)
  {
    predicate IsActive() {
      status.IsActive()
    }

    function Fill(quantity: nat): OrderState
      requires quantity <= remaining
    {
      this.(remaining := remaining - quantity,
            filled := filled + quantity,
            status := if quantity == remaining then Filled else PartiallyFilled)
    }

    function Cancel(): OrderState {
      this.(remaining := 0, status := Cancelled)
    }

    function StpDecrement(quantity: nat): OrderState
      requires quantity <= remaining
    {
      this.(remaining := remaining - quantity,
            status := if quantity == remaining then Cancelled else status)
    }

    // What the order asked for is traded, still open, or given up; nothing is
    // given up before the order is terminal or taken off the book.
    predicate Balanced() {
      filled + remaining <= original
    }
  }

  function NewOrder(id: OrderId, side: Side, price: Price, quantity: nat, timestamp: nat,
                    tif: TimeInForce): OrderState
  {
    OrderState(id, side, price, quantity, quantity, 0, timestamp, tif, New, None, 0)
  }
}
