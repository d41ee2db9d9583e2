/** The reference for matching: one greedy walk over a price-time ordered list. */
module PriceTime {
  import opened Types
  import opened PriceKeys
  import opened SideModel

  // Buy crosses at its limit or below, sell at its limit or above.
  predicate Crosses(incoming: Side, limit: Price, resting: Price) {
    if incoming.Buy? then limit >= resting else limit <= resting
  }

  predicate Conflict(policy: StpPolicy, incoming: Option<nat>, resting: Option<nat>) {
    !policy.Off? && incoming.Some? && resting.Some? && incoming.value == resting.value
  }

  datatype Taker = Taker(side: Side, limit: Price, left: nat, owner: Option<nat>)

  datatype Fill = Fill(maker: OrderId, price: Price, quantity: nat)

  // `left` is the taker's open quantity, `stopped` says self-trade prevention ended the walk.
  datatype Outcome = Outcome(fills: seq<Fill>, left: nat, book: seq<Resting>, stopped: bool)

  predicate Reaches(live: seq<Resting>, t: Taker) {
    t.left > 0 && live != [] && Crosses(t.side, t.limit, live[0].price)
  }

  predicate TakerYields(policy: StpPolicy, left: nat, resting: nat) {
    policy.CancelNewest? || (policy.DecrementAndCancel? && left < resting)
  }

  function Greedy(live: seq<Resting>, t: Taker, policy: StpPolicy): Outcome {
    if !Reaches(live, t) then Outcome([], t.left, live, false)
    else
      var h := live[0];
      if Conflict(policy, t.owner, h.owner) then
        if TakerYields(policy, t.left, h.quantity) then Outcome([], 0, live, true)
        else Greedy(live[1..], t, policy)
      else if t.left < h.quantity then
        Outcome([Fill(h.id, h.price, t.left)], 0, [h.(quantity := h.quantity - t.left)] + live[1..], false)
      else
        var rest := Greedy(live[1..], t.(left := t.left - h.quantity), policy);
        rest.(fills := [Fill(h.id, h.price, h.quantity)] + rest.fills)
  }

  // Every resting order the walk would cancel remembers slot 0 of its level.
  predicate StpSafe(live: seq<Resting>, t: Taker, policy: StpPolicy, orders: OrderMap) {
    !Reaches(live, t) ||
    var h := live[0];
    if Conflict(policy, t.owner, h.owner) then
      TakerYields(policy, t.left, h.quantity) ||
      (h.id in orders && orders[h.id].position == 0 && StpSafe(live[1..], t, policy, orders))
    else
      t.left < h.quantity || StpSafe(live[1..], t.(left := t.left - h.quantity), policy, orders)
  }
}
