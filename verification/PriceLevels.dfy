/** One side of the book as the engine keeps it: a map of levels and a cached best price. */
module EngineSide {
  import opened Types
  import opened PriceKeys
  import opened LevelModel
  import opened SideModel
  import opened MatchModel
  import opened EngineLevel

  lemma {:induction false} TotalsConcat(a: seq<Price>, b: seq<Price>, levels: map<Price, LevelState>)
    ensures SumTotals(a + b, levels) == SumTotals(a, levels) + SumTotals(b, levels)
  {
    if a == [] {
      assert a + b == b;
    } else {
      assert (a + b)[1..] == a[1..] + b;
      TotalsConcat(a[1..], b, levels);
    }
  }

  lemma SameLevels(a: map<Price, LevelState>, b: map<Price, LevelState>)
    requires a.Keys == b.Keys && forall p | p in a :: a[p] == b[p]
    ensures a == b
  {
    assert forall p | p in a :: p in b && a[p] == b[p];
  }

  // A total over keys may be taken in any order.
  lemma TotalsPick(s: Side, keys: set<Price>, k: Price, levels: map<Price, LevelState>)
    requires k in keys && k in levels
    ensures SumTotals(SortedKeys(s, keys), levels) ==
            levels[k].total + SumTotals(SortedKeys(s, keys - {k}), levels)
  {
    SplitKeys(s, keys, k);
    SplitKeys(s, keys - {k}, k);
    assert KeysAbove(s, keys - {k}, k) == KeysAbove(s, keys, k);
    assert KeysBelow(s, keys - {k}, k) == KeysBelow(s, keys, k);
    var a, b := SortedKeys(s, KeysAbove(s, keys, k)), SortedKeys(s, KeysBelow(s, keys, k));
    TotalsConcat(a, [k], levels);
    TotalsConcat(a + [k], b, levels);
    TotalsConcat(a, b, levels);
    assert SumTotals([k], levels) == levels[k].total;
    assert a + [] + b == a + b;
  }

  class PriceLevels {
    const side: Side
    var levels: map<Price, Level>
    var best: Option<Price>

    // A level is filed under its own price, so no two prices share one.
    ghost predicate Valid()
      reads this
    {
      forall p | p in levels :: levels[p].price == p
    }

    ghost function Abs(): SideState
      reads this, levels.Values
    {
      SideState(side, map p | p in levels :: levels[p].Abs(), best)
    }

    constructor (side: Side)
      ensures Valid() && Abs() == NewSide(side) && levels == map[]
    {
      this.side := side;
      levels, best := map[], None;
      new;
      SameLevels(Abs().levels, map[]);
    }

    method RecomputeBestPrice()
      modifies this`best
      ensures best == BestKey(side, levels.Keys)
    {
      if levels.Keys == {} {
        best := None;
      } else {
        BestExists(side, levels.Keys);
        var p :| p in levels.Keys && forall q | q in levels.Keys && q != p :: Better(side, p, q);
        best := Some(p);
        BestIsUnique(side, levels.Keys, p);
      }
    }

    method UpdateBestPriceAfterInsert(p: Price)
      requires Valid()
      modifies this`best
      ensures best == BestAfterInsert(old(Abs()), p)
    {
      if best.None? || Better(side, p, best.value) {
        best := Some(p);
      }
    }

    method GetOrCreateLevel(p: Price) returns (l: Level)
      requires Valid()
      modifies this
      ensures Valid() && p in levels && levels[p] == l
      ensures levels.Values <= old(levels.Values) + {l} && (l in old(levels.Values) || fresh(l))
      ensures levels.Keys == old(levels.Keys) + {p}
      ensures forall q | q in old(levels) :: levels[q] == old(levels[q])
      ensures Abs() == GetOrCreate(old(Abs()), p)
    {
      if p !in levels {
        UpdateBestPriceAfterInsert(p);
        l := new Level(p);
        levels := levels[p := l];
      } else {
        l := levels[p];
      }
    }

    // The slot handed out is the queue length before the order joins.
    method InsertOrder(p: Price, id: OrderId, quantity: nat) returns (slot: nat)
      requires Valid() && id != TOMBSTONE
      modifies this, levels.Values
      ensures Valid() && fresh(levels.Values - old(levels.Values))
      ensures (Abs(), slot) == SideModel.InsertOrder(old(Abs()), p, id, quantity)
    {
      var l := GetOrCreateLevel(p);
      ghost var made := Abs();
      slot := |l.orders|;
      l.PushBack(id, quantity);
      SameLevels(Abs().levels, PutLevel(made, p, LevelModel.PushBack(made.levels[p], id, quantity)).levels);
    }

    method RemoveLevel(p: Price)
      requires Valid()
      modifies this
      ensures Valid() && levels.Values <= old(levels.Values)
      ensures levels == old(levels) - {p}
      ensures Abs() == SideModel.RemoveLevel(old(Abs()), p)
    {
      if p in levels {
        ghost var before := Abs();
        levels := levels - {p};
        SameLevels(Abs().levels, before.levels - {p});
        if best == Some(p) {
          RecomputeBestPrice();
        }
        assert levels.Keys == (before.levels - {p}).Keys;
      }
    }

    // Drops the level at `p` if the change just made to it left it empty.
    method DropIfEmpty(p: Price)
      requires Valid() && p in levels
      modifies this
      ensures Valid() && levels.Values <= old(levels.Values)
      ensures Abs() == if old(levels[p].Abs()).IsEmpty() then SideModel.RemoveLevel(old(Abs()), p) else old(Abs())
    {
      if levels[p].total == 0 {
        RemoveLevel(p);
      }
    }

    method MarkTombstone(p: Price, index: nat, quantity: nat)
      requires Valid()
      modifies this, levels.Values
      ensures Valid() && levels.Values <= old(levels.Values)
      ensures Abs() == MarkSlot(old(Abs()), p, index, quantity)
    {
      if p in levels {
        ghost var before := Abs();
        levels[p].MarkTombstone(index, quantity);
        SameLevels(Abs().levels,
                   PutLevel(before, p, LevelModel.MarkTombstone(before.levels[p], index, quantity)).levels);
        DropIfEmpty(p);
      }
    }

    method RemoveOrder(p: Price, id: OrderId, quantity: nat) returns (found: bool)
      requires Valid()
      modifies this, levels.Values
      ensures Valid() && levels.Values <= old(levels.Values)
      ensures Abs() == SideModel.RemoveOrder(old(Abs()), p, id, quantity)
      ensures found <==> p in old(levels) && id in old(levels[p].orders)
    {
      hide IndexOf, SatSub, BestKey;
      found := false;
      if p in levels {
        ghost var before := Abs();
        found := levels[p].Remove(id, quantity);
        if found {
          SameLevels(Abs().levels, PutLevel(before, p, LevelModel.Remove(before.levels[p], id, quantity)).levels);
          DropIfEmpty(p);
        } else {
          SameLevels(Abs().levels, before.levels);
        }
      }
    }

    // The front order at `p`; tombstones before it are popped.
    method FrontAt(p: Price) returns (id: Option<OrderId>)
      requires Valid() && p in levels
      modifies levels[p]
      ensures Abs() == PutLevel(old(Abs()), p, PurgeFront(old(levels[p].Abs())))
      ensures id == FrontId(old(levels[p].Abs()))
    {
      ghost var before := Abs();
      id := levels[p].Front();
      SameLevels(Abs().levels, PutLevel(before, p, PurgeFront(before.levels[p])).levels);
    }

    method PopFrontAt(p: Price, quantity: nat)
      requires Valid() && p in levels
      modifies levels[p]
      ensures Abs() == PutLevel(old(Abs()), p, LevelModel.PopFront(old(levels[p].Abs()), quantity))
    {
      ghost var before := Abs();
      var id := levels[p].PopFront(quantity);
      SameLevels(Abs().levels, PutLevel(before, p, LevelModel.PopFront(before.levels[p], quantity)).levels);
    }

    // The level at `p` after a trade of `quantity` with its front order.
    method TradeAt(p: Price, quantity: nat, filled: bool)
      requires Valid() && p in levels
      modifies this, levels[p]
      ensures Valid() && levels.Values <= old(levels.Values)
      ensures Abs() == LevelTraded(old(Abs()), p, quantity, filled)
    {
      if filled {
        PopFrontAt(p, quantity);
        DropIfEmpty(p);
      } else {
        DecreaseAt(p, quantity);
      }
    }

    method DecreaseAt(p: Price, amount: nat)
      requires Valid() && p in levels
      modifies levels[p]
      ensures Abs() == PutLevel(old(Abs()), p, LevelModel.DecreaseQuantity(old(levels[p].Abs()), amount))
    {
      ghost var before := Abs();
      levels[p].DecreaseQuantity(amount);
      SameLevels(Abs().levels, PutLevel(before, p, LevelModel.DecreaseQuantity(before.levels[p], amount)).levels);
    }

    method Compact()
      requires Valid()
      modifies levels.Values
      ensures Abs() == CompactSide(old(Abs()))
    {
      var todo := levels.Keys;
      while todo != {}
        invariant todo <= levels.Keys
        invariant forall p | p in levels ::
                    levels[p].Abs() ==
                    if p in todo then old(levels[p].Abs()) else LevelModel.Compact(old(levels[p].Abs()))
        decreases |todo|
      {
        ghost var some := Pick(todo);
        var p :| p in todo;
        levels[p].Compact();
        todo := todo - {p};
      }
      SameLevels(Abs().levels, CompactSide(old(Abs())).levels);
    }

    method TotalQuantity() returns (sum: nat)
      requires Valid()
      ensures sum == SumTotals(SortedKeys(side, levels.Keys), Abs().levels)
    {
      sum := SumOver(levels.Keys);
    }

    method QuantityAtOrBetter(price: Price) returns (sum: nat)
      requires Valid()
      ensures sum == SideModel.QuantityAtOrBetter(Abs(), price)
    {
      sum := SumOver(set k | k in levels.Keys && AtOrBetter(side, k, price));
      assert Abs().levels.Keys == levels.Keys;
    }

    method SumOver(keys: set<Price>) returns (sum: nat)
      requires Valid() && keys <= levels.Keys
      ensures sum == SumTotals(SortedKeys(side, keys), Abs().levels)
    {
      var todo := keys;
      sum := 0;
      while todo != {}
        invariant todo <= keys
        invariant sum + SumTotals(SortedKeys(side, todo), Abs().levels) ==
                  SumTotals(SortedKeys(side, keys), Abs().levels)
        decreases |todo|
      {
        ghost var some := Pick(todo);
        var k :| k in todo;
        TotalsPick(side, todo, k, Abs().levels);
        sum := sum + levels[k].total;
        todo := todo - {k};
      }
    }
  }
}
