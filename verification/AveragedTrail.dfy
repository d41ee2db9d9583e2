/** Where a trailing stop stands, in terms of the prices alone: a closed form for all three rules,
    the averaged one over the newest price changes included. */
module AveragedTrail {
  import opened Types
  import opened PriceKeys
  import opened StopModel
  import opened StopTriggers
  import opened StopTrailing

  // ---- the price history ------------------------------------------------------------

  function Distance(a: Price, b: Price): nat {
    if a <= b then b - a else a - b
  }

  // The way from the price at `lo` to the price at `hi`, step by step.
  function Travelled(prices: seq<Price>, lo: nat, hi: nat): nat
    requires lo <= hi < |prices|
  {
    if lo == hi then 0 else Travelled(prices, lo, hi - 1) + Distance(prices[hi - 1], prices[hi])
  }

  // How many changes are on record after `count` prices: at most ten thousand.
  function Steps(count: nat): nat {
    if count == 0 then 0 else if count > 10_000 then 10_000 else count - 1
  }

  /** The stop book has seen these prices: it holds the last one and the newest changes. */
  ghost predicate Remembers(b: StopState, seen: seq<Price>) {
    && b.last == (if seen == [] then None else Some(seen[|seen| - 1]))
    && |b.changes| == Steps(|seen|)
    && forall k | 0 <= k < |b.changes| ::
         b.changes[k] == Distance(seen[|seen| - |b.changes| + k - 1], seen[|seen| - |b.changes| + k])
  }

  lemma NewStopsRemember()
    ensures Remembers(NewStops(), [])
  {
  }

  lemma RecordRemembers(b: StopState, seen: seq<Price>, p: Price)
    requires Remembers(b, seen)
    ensures Remembers(RecordPrice(b, p), seen + [p])
  {
    var after, all := RecordPrice(b, p).changes, seen + [p];
    if seen != [] {
      var grown := b.changes + [Abs(p - seen[|seen| - 1])];
      var first := |seen| - |b.changes|;
      forall k | 0 <= k < |grown| ensures grown[k] == Distance(all[first + k - 1], all[first + k]) {
        if k < |b.changes| {
          assert grown[k] == b.changes[k];
        }
      }
      if |grown| > 10_000 {
        assert forall k | 0 <= k < |after| :: after[k] == grown[k + 1];
      }
    }
  }

  /** A trade at `p` adds `p` to what the stop book has seen. */
  lemma UpdateRemembers(b: StopState, seen: seq<Price>, p: Price)
    requires GoodStops(b) && Remembers(b, seen)
    ensures Remembers(UpdateTrailing(b, p), seen + [p])
  {
    hide RecordPrice, GoodStops;
    RecordRemembers(b, seen, p);
    UpdateExact(b, p);
    assert RecordPrice(b, p).last == Some(p);
  }

  // ---- the three rules ----------------------------------------------------------------

  // `t` is `x` without its fraction.
  predicate IsTowardZero(x: real, t: int) {
    if x >= 0.0 then t as real <= x < t as real + 1.0 else t as real - 1.0 < x <= t as real
  }

  // `t` is the whole number nearest to `x`, and of two equally near the one further from zero.
  predicate IsNearest(x: real, t: int) {
    if x >= 0.0 then t as real - 0.5 <= x < t as real + 0.5 else t as real - 0.5 < x <= t as real + 0.5
  }

  function Times(x: real, multiplier: real): real {
    x * multiplier
  }

  // The mean change over the last `n` steps.
  function MeanChange(seen: seq<Price>, n: nat): real
    requires 0 < n < |seen|
  {
    Travelled(seen, |seen| - 1 - n, |seen| - 1) as real / n as real
  }

  /** The distance a rule keeps from the best price, the last of the prices seen being the current one. */
  predicate IsOffset(trail: TrailMethod, seen: seq<Price>, best: Price, offset: int) {
    match trail
    case Fixed(cents) => offset == cents
    case Percentage(fraction) => IsNearest(best as real * fraction, offset)
    case SmaAbsChange(multiplier, period) =>
      var n := Min(period, Steps(|seen|));
      if n == 0 then offset == 0 else IsTowardZero(Times(MeanChange(seen, n), multiplier), offset)
  }

  lemma OffsetIsUnique(trail: TrailMethod, seen: seq<Price>, best: Price, x: int, y: int)
    requires IsOffset(trail, seen, best, x) && IsOffset(trail, seen, best, y)
    ensures x == y
  {
  }

  lemma RoundIsNearest(x: real)
    ensures IsNearest(x, Round(x))
  {
  }

  lemma TruncateIsTowardZero(x: real)
    ensures IsTowardZero(x, Truncate(x))
  {
  }

  lemma {:induction false} TravelledHead(prices: seq<Price>, lo: nat, hi: nat)
    requires lo < hi < |prices|
    ensures Travelled(prices, lo, hi) == Distance(prices[lo], prices[lo + 1]) + Travelled(prices, lo + 1, hi)
    decreases hi
  {
    if lo + 1 < hi {
      TravelledHead(prices, lo, hi - 1);
    }
  }

  lemma {:induction false} NewestSum(b: StopState, seen: seq<Price>, n: nat)
    requires Remembers(b, seen) && n <= |b.changes|
    ensures n < |seen| || n == 0
    ensures n > 0 ==> Sum(b.changes[|b.changes| - n..]) == Travelled(seen, |seen| - 1 - n, |seen| - 1)
    ensures n == 0 ==> Sum(b.changes[|b.changes| - n..]) == 0
    decreases n
  {
    if n > 0 {
      NewestSum(b, seen, n - 1);
      var window := b.changes[|b.changes| - n..];
      assert window[1..] == b.changes[|b.changes| - (n - 1)..];
      var k := |b.changes| - n;
      assert b.changes[k] == Distance(seen[|seen| - |b.changes| + k - 1], seen[|seen| - |b.changes| + k]);
      TravelledHead(seen, |seen| - 1 - n, |seen| - 1);
    }
  }

  /** Every rule computes its offset from the newest prices and the best one only. */
  lemma OffsetIs(trail: TrailMethod, b: StopState, seen: seq<Price>, best: Price)
    requires Remembers(b, seen)
    ensures IsOffset(trail, seen, best, Offset(trail, best, b.changes))
  {
    match trail
    case Fixed(cents) =>
    case Percentage(fraction) => RoundIsNearest(best as real * fraction);
    case SmaAbsChange(multiplier, period) => AverageIs(multiplier, period, b, seen);
  }

  lemma AverageIs(multiplier: real, period: nat, b: StopState, seen: seq<Price>)
    requires Remembers(b, seen)
    ensures var n := Min(period, Steps(|seen|));
            if n == 0 then SmaOffset(b.changes, multiplier, period) == 0
            else IsTowardZero(Times(MeanChange(seen, n), multiplier), SmaOffset(b.changes, multiplier, period))
  {
    hide Truncate, IsTowardZero, Remembers, SmaOffset, Times;
    var n := Min(period, Steps(|seen|));
    assert |b.changes| == Steps(|seen|) by {
      ChangesKept(b, seen);
    }
    NewestSum(b, seen, n);
    if n == 0 {
      NoAverage(b.changes, multiplier, period);
    } else {
      var window := if |b.changes| >= period then b.changes[|b.changes| - period..] else b.changes;
      assert window == b.changes[|b.changes| - n..] && |window| == n;
      assert Sum(window) == Travelled(seen, |seen| - 1 - n, |seen| - 1);
      var mean := MeanChange(seen, n);
      AverageOf(b.changes, multiplier, period, window, mean, Times(mean, multiplier));
      TruncateIsTowardZero(Times(mean, multiplier));
    }
  }

  lemma NoAverage(changes: seq<int>, multiplier: real, period: nat)
    requires changes == [] || period == 0
    ensures SmaOffset(changes, multiplier, period) == 0
  {
  }

  lemma AverageOf(changes: seq<int>, multiplier: real, period: nat, window: seq<int>, mean: real, x: real)
    requires changes != [] && period > 0
    requires window == if |changes| >= period then changes[|changes| - period..] else changes
    requires mean == Sum(window) as real / |window| as real && x == Times(mean, multiplier)
    ensures SmaOffset(changes, multiplier, period) == Truncate(x)
  {
  }

  lemma ChangesKept(b: StopState, seen: seq<Price>)
    requires Remembers(b, seen)
    ensures |b.changes| == Steps(|seen|)
  {
  }

  // ---- the closed form -------------------------------------------------------------------

  // The offsets of a rule after each of the prices, `seen` having gone before.
  ghost predicate Offsets(trail: TrailMethod, s: Side, seen: seq<Price>, prices: seq<Price>, offsets: seq<int>) {
    && |offsets| == |prices|
    && forall i | 0 <= i < |prices| ::
         IsOffset(trail, seen + prices[..i + 1], Extreme(s, prices[..i + 1]), offsets[i])
  }

  // Where the rule puts the stop after the price at `i`.
  function Wanted(s: Side, prices: seq<Price>, i: nat, offset: int): Price
    requires i < |prices|
  {
    if s.Sell? then Extreme(s, prices[..i + 1]) - offset else Extreme(s, prices[..i + 1]) + offset
  }

  // The tightest of the starting price and everything the rule wanted at a positive distance.
  ghost predicate IsTightest(s: Side, from: Price, prices: seq<Price>, offsets: seq<int>, stop: Price)
    requires |offsets| == |prices|
  {
    && (stop == from || exists i | 0 <= i < |prices| :: offsets[i] > 0 && stop == Wanted(s, prices, i, offsets[i]))
    && (if s.Sell? then from <= stop else stop <= from)
    && forall i | 0 <= i < |prices| && offsets[i] > 0 ::
         if s.Sell? then Wanted(s, prices, i, offsets[i]) <= stop else stop <= Wanted(s, prices, i, offsets[i])
  }

  lemma TightestStep(s: Side, from: Price, prices: seq<Price>, offsets: seq<int>, stop: Price, p: Price, offset: int,
                     next: Price)
    requires |offsets| == |prices| && IsTightest(s, from, prices, offsets, stop)
    requires var to := Wanted(s, prices + [p], |prices|, offset);
             next == if offset > 0 && (if s.Sell? then to > stop else to < stop) then to else stop
    ensures IsTightest(s, from, prices + [p], offsets + [offset], next)
  {
    var all := prices + [p];
    forall i | 0 <= i < |prices|
      ensures Wanted(s, all, i, (offsets + [offset])[i]) == Wanted(s, prices, i, offsets[i])
    {
      assert all[..i + 1] == prices[..i + 1];
    }
    if next == stop && stop != from {
      var i :| 0 <= i < |prices| && offsets[i] > 0 && stop == Wanted(s, prices, i, offsets[i]);
      assert (offsets + [offset])[i] > 0 && stop == Wanted(s, all, i, (offsets + [offset])[i]);
    }
    assert (offsets + [offset])[|prices|] == offset;
  }

  lemma {:induction false} RunRemembers(b: StopState, seen: seq<Price>, prices: seq<Price>)
    requires GoodStops(b) && Remembers(b, seen)
    ensures GoodStops(UpdateRun(b, prices)) && Remembers(UpdateRun(b, prices), seen + prices)
    decreases |prices|
  {
    hide GoodStops, Remembers;
    if prices == [] {
      assert seen + prices == seen;
    } else {
      var before, p := prices[..|prices| - 1], prices[|prices| - 1];
      RunRemembers(b, seen, before);
      UpdateExact(UpdateRun(b, before), p);
      UpdateRemembers(UpdateRun(b, before), seen + before, p);
      assert seen + before + [p] == seen + prices;
    }
  }

  // The next price moves the stop by its rule.
  lemma MovedBy(o: StopOrder, b: StopState, seen: seq<Price>, p: Price, best: Price, offset: int)
    requires o.trail.Some? && Remembers(b, seen) && seen != [] && seen[|seen| - 1] == p
    requires best == Watermark(o, p) && IsOffset(o.trail.value, seen, best, offset)
    ensures var to := if o.side.Sell? then best - offset else best + offset;
            Moved(o, p, b.changes) ==
            o.(watermark := Some(best),
               stopPrice := if offset > 0 && (if o.side.Sell? then to > o.stopPrice else to < o.stopPrice)
                            then to else o.stopPrice)
  {
    hide Offset, IsOffset, Remembers;
    OffsetIs(o.trail.value, b, seen, best);
    OffsetIsUnique(o.trail.value, seen, best, offset, Offset(o.trail.value, best, b.changes));
  }

  /** Any trailing stop after any prices: the watermark is the best of them, the stop is the tightest
      of where it started and what its rule wanted after each price, offsets that are not positive
      left out. */
  lemma {:induction false} TrailClosedForm(b: StopState, seen: seq<Price>, prices: seq<Price>, id: OrderId,
                                           offsets: seq<int>)
    requires GoodStops(b) && Remembers(b, seen)
    requires IsTrailing(b.orders, id) && b.orders[id].watermark == None && prices != []
    requires Offsets(b.orders[id].trail.value, b.orders[id].side, seen, prices, offsets)
    ensures id in UpdateRun(b, prices).orders
    ensures var o, after := b.orders[id], UpdateRun(b, prices).orders[id];
            && after == o.(watermark := Some(Extreme(o.side, prices)), stopPrice := after.stopPrice)
            && IsTightest(o.side, o.stopPrice, prices, offsets, after.stopPrice)
    decreases |prices|
  {
    hide GoodStops, Remembers, IsOffset, IsTightest, Moved;
    var o := b.orders[id];
    var n := |prices| - 1;
    var before, p := prices[..n], prices[n];
    var mid := UpdateRun(b, before);
    NeverLoosens(b, before, id);
    NeverLoosens(b, prices, id);
    UpdateExact(mid, p);
    RunRemembers(b, seen, prices);
    if before == [] {
      FromTheStart(o.side, o.stopPrice);
    } else {
      OffsetsBefore(o.trail.value, o.side, seen, prices, offsets);
      TrailClosedForm(b, seen, before, id, offsets[..n]);
    }
    assert prices[..n + 1] == prices;
    assert seen + prices[..n + 1] == seen + prices;
    MovedBy(mid.orders[id], UpdateRun(b, prices), seen + prices, p, Extreme(o.side, prices), offsets[n]);
    assert before + [p] == prices && offsets[..n] + [offsets[n]] == offsets;
    TightestStep(o.side, o.stopPrice, before, offsets[..n], mid.orders[id].stopPrice, p, offsets[n],
                 UpdateRun(b, prices).orders[id].stopPrice);
  }

  lemma FromTheStart(s: Side, from: Price)
    ensures IsTightest(s, from, [], [], from)
  {
  }

  lemma OffsetsBefore(trail: TrailMethod, s: Side, seen: seq<Price>, prices: seq<Price>, offsets: seq<int>)
    requires Offsets(trail, s, seen, prices, offsets) && prices != []
    ensures Offsets(trail, s, seen, prices[..|prices| - 1], offsets[..|prices| - 1])
  {
    var before := prices[..|prices| - 1];
    forall i | 0 <= i < |before|
      ensures IsOffset(trail, seen + before[..i + 1], Extreme(s, before[..i + 1]), offsets[..|before|][i])
    {
      assert before[..i + 1] == prices[..i + 1];
    }
  }

  // There is always one such list of offsets.
  lemma {:induction false} OffsetsExist(trail: TrailMethod, s: Side, b: StopState, seen: seq<Price>, prices: seq<Price>)
    returns (offsets: seq<int>)
    requires GoodStops(b) && Remembers(b, seen)
    ensures Offsets(trail, s, seen, prices, offsets)
    decreases |prices|
  {
    hide GoodStops, Remembers, IsOffset;
    if prices == [] {
      offsets := [];
    } else {
      var before := prices[..|prices| - 1];
      var rest := OffsetsExist(trail, s, b, seen, before);
      RunRemembers(b, seen, prices);
      var last := Offset(trail, Extreme(s, prices), UpdateRun(b, prices).changes);
      OffsetIs(trail, UpdateRun(b, prices), seen + prices, Extreme(s, prices));
      offsets := rest + [last];
      assert prices[..|prices|] == prices;
      forall i | 0 <= i < |before|
        ensures IsOffset(trail, seen + prices[..i + 1], Extreme(s, prices[..i + 1]), offsets[i])
      {
        assert before[..i + 1] == prices[..i + 1];
      }
    }
  }

  /** Prices older than the window leave no trace: two histories that agree on the last `period`
      prices give an averaged stop the same move, whatever went before. */
  lemma OldPricesForgotten(b1: StopState, s1: seq<Price>, b2: StopState, s2: seq<Price>, recent: seq<Price>,
                           o: StopOrder, p: Price, multiplier: real, period: nat)
    requires Remembers(b1, s1 + recent) && Remembers(b2, s2 + recent)
    requires o.trail == Some(SmaAbsChange(multiplier, period)) && period <= |recent| && period <= 10_000
    ensures Moved(o, p, ChangesAfter(b1, p)) == Moved(o, p, ChangesAfter(b2, p))
  {
    hide RecordPrice, Remembers, IsOffset, Offset;
    var best, all := Watermark(o, p), recent + [p];
    RecordRemembers(b1, s1 + recent, p);
    RecordRemembers(b2, s2 + recent, p);
    var off1 := Offset(o.trail.value, best, ChangesAfter(b1, p));
    var off2 := Offset(o.trail.value, best, ChangesAfter(b2, p));
    OffsetIs(o.trail.value, RecordPrice(b1, p), s1 + recent + [p], best);
    OffsetIs(o.trail.value, RecordPrice(b2, p), s2 + recent + [p], best);
    RecentOnly(s1, recent, p, multiplier, period, best, off1);
    RecentOnly(s2, recent, p, multiplier, period, best, off2);
    OffsetIsUnique(o.trail.value, all, best, off1, off2);
  }

  lemma RecentOnly(aged: seq<Price>, recent: seq<Price>, p: Price, multiplier: real, period: nat, best: Price,
                   offset: int)
    requires period <= |recent| && period <= 10_000
    requires IsOffset(SmaAbsChange(multiplier, period), aged + recent + [p], best, offset)
    ensures IsOffset(SmaAbsChange(multiplier, period), recent + [p], best, offset)
  {
    hide IsTowardZero, Times;
    var all, tail := aged + recent + [p], recent + [p];
    assert Min(period, Steps(|all|)) == period == Min(period, Steps(|tail|));
    if period > 0 {
      assert aged + tail == all;
      TravelledSuffix(aged, tail, |tail| - 1 - period, |tail| - 1);
      assert MeanChange(all, period) == MeanChange(tail, period);
    }
  }

  lemma {:induction false} TravelledSuffix(aged: seq<Price>, tail: seq<Price>, lo: nat, hi: nat)
    requires lo <= hi < |tail|
    ensures Travelled(aged + tail, |aged| + lo, |aged| + hi) == Travelled(tail, lo, hi)
    decreases hi
  {
    if lo < hi {
      TravelledSuffix(aged, tail, lo, hi - 1);
    }
  }
}
