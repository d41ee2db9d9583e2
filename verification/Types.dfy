/** Values shared by every module: sides, time in force, order and trade records. */
module Types {

  datatype Option<+T> = None | Some(value: T)

  datatype Side = Buy | Sell {
    function Opposite(): Side {
      if Buy? then Sell else Buy
    }
  }

  datatype TimeInForce = GTC | IOC | FOK

  datatype StpPolicy = Off | CancelNewest | CancelOldest | DecrementAndCancel

  datatype OrderStatus = New | PartiallyFilled | Filled | Cancelled {
    predicate IsActive() {
      New? || PartiallyFilled?
    }
  }

  // Identifiers, quantities and timestamps are counters (`nat`); prices are
  // signed. The two extreme prices are what market orders are submitted at.
  type OrderId = nat
  type Price = int

  const MAX_PRICE: Price := 0x7FFF_FFFF_FFFF_FFFF
  const MIN_PRICE: Price := -0x8000_0000_0000_0000

  datatype Trade = Trade(
    id: nat,
    price: Price,
    quantity: nat,
    aggressor: OrderId,
    passive: OrderId,
    aggressorSide: Side,
    timestamp: nat)

  function Min(a: nat, b: nat): nat {
    if a <= b then a else b
  }

  // Saturating subtraction, as level totals use it.
  function SatSub(a: nat, b: nat): (r: nat)
    ensures r + Min(a, b) == a
  {
    if b <= a then a - b else 0
  }
}
