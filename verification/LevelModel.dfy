/** A FIFO queue of order ids at one price, with cancelled entries kept as zeros. */
module LevelModel {
  import opened Types

  const TOMBSTONE: OrderId := 0

  datatype LevelState = LevelState(
    price: Price,
    orders: seq<OrderId>,
    total: nat,
    tombstones: int)
  {
    predicate IsEmpty() {
      total == 0
    }

    function OrderCount(): int {
      |orders| - tombstones
    }
  }

  function NewLevel(price: Price): LevelState {
    LevelState(price, [], 0, 0)
  }

  // The queue as a reader sees it: ids in FIFO order, tombstones skipped.
  function LiveIds(queue: seq<OrderId>): seq<OrderId> {
    if queue == [] then []
    else (if queue[0] == TOMBSTONE then [] else [queue[0]]) + LiveIds(queue[1..])
  }

  function Zeros(queue: seq<OrderId>): nat {
    if queue == [] then 0
    else (if queue[0] == TOMBSTONE then 1 else 0) + Zeros(queue[1..])
  }

  // The queue once its leading tombstones are popped.
  function Purge(queue: seq<OrderId>): seq<OrderId> {
    if queue != [] && queue[0] == TOMBSTONE then Purge(queue[1..]) else queue
  }

  function IndexOf(queue: seq<OrderId>, id: OrderId): (r: Option<nat>)
    ensures r.None? <==> id !in queue
    ensures r.Some? ==> r.value < |queue| && queue[r.value] == id && id !in queue[..r.value]
  {
    if queue == [] then None
    else if queue[0] == id then Some(0)
    else match IndexOf(queue[1..], id)
      case None => None
      case Some(k) => Some(k + 1)
  }

  // ---- operations -----------------------------------------------------

  function PurgeFront(l: LevelState): LevelState {
    l.(orders := Purge(l.orders), tombstones := l.tombstones - (|l.orders| - |Purge(l.orders)|))
  }

  function FrontId(l: LevelState): Option<OrderId> {
    if Purge(l.orders) == [] then None else Some(Purge(l.orders)[0])
  }

  function PushBack(l: LevelState, id: OrderId, quantity: nat): LevelState {
    l.(orders := l.orders + [id], total := l.total + quantity)
  }

  function PopFront(l: LevelState, quantity: nat): LevelState {
    var purged := PurgeFront(l);
    if purged.orders == [] then purged
    else purged.(orders := purged.orders[1..], total := SatSub(l.total, quantity))
  }

  function MarkTombstone(l: LevelState, index: nat, quantity: nat): LevelState {
    if index < |l.orders| && l.orders[index] != TOMBSTONE then
      l.(orders := l.orders[index := TOMBSTONE],
         total := SatSub(l.total, quantity),
         tombstones := l.tombstones + 1)
    else l
  }

  function Remove(l: LevelState, id: OrderId, quantity: nat): LevelState {
    match IndexOf(l.orders, id)
    case None => l
    case Some(k) => l.(orders := l.orders[..k] + l.orders[k + 1..], total := SatSub(l.total, quantity))
  }

  function Compact(l: LevelState): LevelState {
    if l.tombstones == 0 then l else l.(orders := LiveIds(l.orders), tombstones := 0)
  }

  function DecreaseQuantity(l: LevelState, amount: nat): LevelState {
    l.(total := SatSub(l.total, amount))
  }

  // ---- facts about queues ---------------------------------------------

  lemma {:induction false} LiveConcat(a: seq<OrderId>, b: seq<OrderId>)
    ensures LiveIds(a + b) == LiveIds(a) + LiveIds(b)
    ensures Zeros(a + b) == Zeros(a) + Zeros(b)
  {
    if a == [] {
      assert a + b == b;
    } else {
      assert (a + b)[1..] == a[1..] + b;
      LiveConcat(a[1..], b);
    }
  }

  lemma {:induction false} LiveLength(queue: seq<OrderId>)
    ensures |LiveIds(queue)| + Zeros(queue) == |queue|
    ensures forall x :: x in LiveIds(queue) <==> x in queue && x != TOMBSTONE
  {
    if queue != [] {
      LiveLength(queue[1..]);
      assert queue == [queue[0]] + queue[1..];
    }
  }

  lemma {:induction false} PurgeFacts(queue: seq<OrderId>)
    ensures LiveIds(Purge(queue)) == LiveIds(queue)
    ensures |Purge(queue)| <= |queue|
    ensures Zeros(queue) - Zeros(Purge(queue)) == |queue| - |Purge(queue)|
    ensures Purge(queue) == queue[|queue| - |Purge(queue)|..]
    ensures Purge(queue) != [] ==> Purge(queue)[0] != TOMBSTONE
  {
    if queue != [] && queue[0] == TOMBSTONE {
      PurgeFacts(queue[1..]);
    }
  }

  lemma {:induction false} LiveOfLive(queue: seq<OrderId>)
    ensures LiveIds(LiveIds(queue)) == LiveIds(queue)
    ensures Zeros(LiveIds(queue)) == 0
  {
    if queue != [] {
      LiveOfLive(queue[1..]);
      if queue[0] == TOMBSTONE {
        assert LiveIds(queue) == LiveIds(queue[1..]);
      } else {
        assert LiveIds(queue)[1..] == LiveIds(queue[1..]);
      }
    }
  }

  lemma CutAt(queue: seq<OrderId>, k: nat)
    requires k < |queue|
    ensures queue == queue[..k] + [queue[k]] + queue[k + 1..]
    ensures queue[k := TOMBSTONE] == queue[..k] + [TOMBSTONE] + queue[k + 1..]
  {
  }

  lemma {:induction false} LiveAroundSlot(queue: seq<OrderId>, k: nat)
    requires k < |queue| && queue[k] != TOMBSTONE
    ensures LiveIds(queue) == LiveIds(queue[..k]) + [queue[k]] + LiveIds(queue[k + 1..])
    ensures LiveIds(queue[k := TOMBSTONE]) == LiveIds(queue[..k]) + LiveIds(queue[k + 1..])
    ensures Zeros(queue[k := TOMBSTONE]) == Zeros(queue) + 1
    ensures LiveIds(queue[..k] + queue[k + 1..]) == LiveIds(queue[..k]) + LiveIds(queue[k + 1..])
    ensures Zeros(queue[..k] + queue[k + 1..]) == Zeros(queue)
  {
    CutAt(queue, k);
    LiveConcat(queue[..k], queue[k + 1..]);
    LiveConcat(queue[..k], [queue[k]]);
    LiveConcat(queue[..k] + [queue[k]], queue[k + 1..]);
    LiveConcat(queue[..k], [TOMBSTONE]);
    LiveConcat(queue[..k] + [TOMBSTONE], queue[k + 1..]);
    assert LiveIds([queue[k]]) == [queue[k]] && LiveIds([TOMBSTONE]) == [];
  }

  // ---- tombstones refine deletion -------------------------------------

  // Two levels no reader can tell apart: same live FIFO, same total, and a
  // tombstone counter that is exact on both.
  ghost predicate SameLevel(a: LevelState, b: LevelState) {
    && a.price == b.price
    && LiveIds(a.orders) == LiveIds(b.orders)
    && a.total == b.total
    && a.tombstones == Zeros(a.orders)
    && b.tombstones == Zeros(b.orders)
  }

  datatype LevelOp =
    | OpFront
    | OpPushBack(id: OrderId, quantity: nat)
    | OpPopFront(quantity: nat)
    | OpCompact
    | OpDecrease(quantity: nat)

  function ApplyOp(l: LevelState, op: LevelOp): LevelState {
    match op
    case OpFront => PurgeFront(l)
    case OpPushBack(id, q) => if id == TOMBSTONE then l else PushBack(l, id, q)
    case OpPopFront(q) => PopFront(l, q)
    case OpCompact => Compact(l)
    case OpDecrease(q) => DecreaseQuantity(l, q)
  }

  // What the caller of `op` gets back.
  function Answer(l: LevelState, op: LevelOp): Option<OrderId> {
    if op.OpFront? || op.OpPopFront? then FrontId(l) else None
  }

  function RunOps(l: LevelState, ops: seq<LevelOp>): (LevelState, seq<Option<OrderId>>)
    decreases |ops|
  {
    if ops == [] then (l, [])
    else
      var (last, answers) := RunOps(ApplyOp(l, ops[0]), ops[1..]);
      (last, [Answer(l, ops[0])] + answers)
  }

  lemma FrontIsFirstLive(l: LevelState)
    ensures FrontId(l) == if LiveIds(l.orders) == [] then None else Some(LiveIds(l.orders)[0])
    ensures LiveIds(PurgeFront(l).orders) == LiveIds(l.orders)
    ensures l.tombstones == Zeros(l.orders) ==>
              PurgeFront(l).tombstones == Zeros(PurgeFront(l).orders)
    ensures FrontId(l).Some? ==>
              && FrontId(l).value != TOMBSTONE
              && PurgeFront(l).orders != [] && PurgeFront(l).orders[0] == FrontId(l).value
              && LiveIds(PurgeFront(l).orders[1..]) == LiveIds(l.orders)[1..]
              && Zeros(PurgeFront(l).orders[1..]) == Zeros(PurgeFront(l).orders)
  {
    PurgeFacts(l.orders);
  }

  lemma SameLevelStep(a: LevelState, b: LevelState, op: LevelOp)
    requires SameLevel(a, b)
    ensures SameLevel(ApplyOp(a, op), ApplyOp(b, op))
    ensures Answer(a, op) == Answer(b, op)
  {
    FrontIsFirstLive(a);
    FrontIsFirstLive(b);
    match op
    case OpPushBack(id, q) =>
      LiveConcat(a.orders, [id]);
      LiveConcat(b.orders, [id]);
    case OpCompact =>
      LiveOfLive(a.orders);
      LiveOfLive(b.orders);
    case _ =>
  }

  lemma {:induction false} SameLevelRun(a: LevelState, b: LevelState, ops: seq<LevelOp>)
    requires SameLevel(a, b)
    ensures SameLevel(RunOps(a, ops).0, RunOps(b, ops).0)
    ensures RunOps(a, ops).1 == RunOps(b, ops).1
    ensures RunOps(a, ops).0.OrderCount() == RunOps(b, ops).0.OrderCount()
    decreases |ops|
  {
    if ops == [] {
      LiveLength(a.orders);
      LiveLength(b.orders);
    } else {
      SameLevelStep(a, b, ops[0]);
      SameLevelRun(ApplyOp(a, ops[0]), ApplyOp(b, ops[0]), ops[1..]);
    }
  }

  ghost predicate DistinctLive(queue: seq<OrderId>) {
    forall i, j | 0 <= i < j < |queue| && queue[i] != TOMBSTONE :: queue[i] != queue[j]
  }

  /** Cancelling by slot answers every later query exactly as deletion by id does,
      if and only if the slot holds the id. */
  lemma TombstoneRefinesRemove(l: LevelState, id: OrderId, index: nat, quantity: nat, ops: seq<LevelOp>)
    requires id != TOMBSTONE && id in l.orders
    requires DistinctLive(l.orders) && l.tombstones == Zeros(l.orders)
    ensures var byIndex := RunOps(MarkTombstone(l, index, quantity), ops);
            var byId := RunOps(Remove(l, id, quantity), ops);
            index < |l.orders| && l.orders[index] == id ==>
              && byIndex.1 == byId.1
              && SameLevel(byIndex.0, byId.0)
              && byIndex.0.OrderCount() == byId.0.OrderCount()
    ensures (LiveIds(MarkTombstone(l, index, quantity).orders) == LiveIds(Remove(l, id, quantity).orders))
              <==> (index < |l.orders| && l.orders[index] == id)
  {
    var k := IndexOf(l.orders, id).value;
    LiveAroundSlot(l.orders, k);
    if index < |l.orders| && l.orders[index] == id {
      assert index == k;
      SameLevelRun(MarkTombstone(l, index, quantity), Remove(l, id, quantity), ops);
    } else {
      var marked := MarkTombstone(l, index, quantity).orders;
      assert marked[k] == id;
      LiveLength(marked);
      LiveLength(l.orders[..k] + l.orders[k + 1..]);
      assert id !in l.orders[..k] + l.orders[k + 1..];
      assert id in LiveIds(marked);
    }
  }
}
