/** What the indicators measure: averages and MACD on straight lines, the relative strength index by
    its defining proportion, the ultimate oscillator by its weights and its range. */
module Indicators {
  import opened Types
  import opened Windows
  import M = Macd
  import W = Wilder
  import U = UltimateOscillator

  // ---- averages of a straight line -------------------------------------------------------

  ghost predicate Straight(v: seq<real>, a: real, b: real) {
    forall t: nat | t < |v| :: v[t] == Point(a, b, t as real)
  }

  function Point(a: real, b: real, t: real): real {
    a + b * t
  }

  // Twice the sum of the points at `lo, ..., hi - 1`.
  function LineSum(a: real, b: real, lo: real, hi: real): real {
    (hi - lo) * (2.0 * a + b * (lo + hi - 1.0))
  }

  lemma LineSumStep(a: real, b: real, lo: real, hi: real)
    ensures LineSum(a, b, lo, hi + 1.0) == LineSum(a, b, lo, hi) + 2.0 * Point(a, b, hi)
  {
    var slope, n := b * (lo + hi - 1.0), hi - lo;
    assert b * (lo + hi) == slope + b;
    assert (n + 1.0) * (2.0 * a + slope + b) == n * (2.0 * a + slope) + n * b + 2.0 * a + slope + b;
    assert n * b + slope + b == 2.0 * (b * hi);
  }

  lemma {:induction false} WindowOfLine(v: seq<real>, a: real, b: real, lo: nat, hi: nat)
    requires Straight(v, a, b) && lo <= hi <= |v|
    ensures 2.0 * WindowSum(v, lo, hi) == LineSum(a, b, lo as real, hi as real)
    decreases hi
  {
    hide Point, LineSum;
    if lo == hi {
      EmptyLine(a, b, lo as real);
    } else {
      WindowOfLine(v, a, b, lo, hi - 1);
      LineSumStep(a, b, lo as real, (hi - 1) as real);
      assert v[hi - 1] == Point(a, b, (hi - 1) as real);
    }
  }

  lemma EmptyLine(a: real, b: real, x: real)
    ensures LineSum(a, b, x, x) == 0.0
  {
  }

  // The middle of a window of `n` points that ends at `t`.
  function Middle(t: real, n: real): real {
    t - (n - 1.0) / 2.0
  }

  lemma MeanOfLine(a: real, b: real, lo: real, n: real, sum: real)
    requires n > 0.0 && 2.0 * sum == LineSum(a, b, lo, lo + n)
    ensures sum / n == Point(a, b, Middle(lo + n - 1.0, n))
  {
    var mean := Point(a, b, Middle(lo + n - 1.0, n));
    assert 2.0 * mean == 2.0 * a + b * (lo + lo + n - 1.0);
    assert n * (2.0 * mean) == 2.0 * sum;
  }

  /** The simple average of a straight line stands at the middle of its window. */
  lemma SmaOfLine(v: seq<real>, a: real, b: real, period: nat, i: nat)
    requires Straight(v, a, b) && 0 < period <= i + 1 && i < |v|
    ensures SmaAt(v, period, i) == Some(Point(a, b, Middle(i as real, period as real)))
  {
    hide LineSum, Point, Middle;
    assert (i + 1 - period) as real + period as real == (i + 1) as real;
    assert (i + 1) as real - 1.0 == i as real;
    WindowOfLine(v, a, b, i + 1 - period, i + 1);
    MeanOfLine(a, b, (i + 1 - period) as real, period as real, WindowSum(v, i + 1 - period, i + 1));
  }

  // `next` moves from `prev` towards `x` by two parts in `n + 1`.
  predicate Follows(x: real, prev: real, next: real, n: real) {
    (n + 1.0) * next == 2.0 * x + (n - 1.0) * prev
  }

  lemma SmoothFollows(x: real, prev: real, period: nat)
    requires period > 0
    ensures Follows(x, prev, Smooth(x, prev, period), period as real)
  {
    var n := period as real;
    var k := 2.0 / (n + 1.0);
    var gap := x - prev;
    assert k * (n + 1.0) == 2.0;
    assert gap * k * (n + 1.0) == gap * (k * (n + 1.0));
    assert Smooth(x, prev, period) == gap * k + prev;
  }

  lemma LineFollows(a: real, b: real, t: real, n: real, next: real)
    requires n > 0.0 && Follows(Point(a, b, t), Point(a, b, Middle(t - 1.0, n)), next, n)
    ensures next == Point(a, b, Middle(t, n))
  {
    var want, prev := Point(a, b, Middle(t, n)), Point(a, b, Middle(t - 1.0, n));
    assert want == prev + b;
    var half := (n + 1.0) / 2.0;
    assert Point(a, b, t) == prev + b * half by {
      assert t == Middle(t - 1.0, n) + half;
      assert b * t == b * Middle(t - 1.0, n) + b * half;
    }
    assert 2.0 * (b * half) == b * (n + 1.0);
    assert (n + 1.0) * next == (n + 1.0) * prev + b * (n + 1.0);
    assert (n + 1.0) * (next - prev - b) == 0.0;
  }

  /** The exponential average follows a straight line half a window behind, from its seed on. */
  lemma {:induction false} EmaOfLine(v: seq<real>, a: real, b: real, start: nat, period: nat, i: nat)
    requires Straight(v, a, b) && period > 0 && start + period - 1 <= i < |v|
    ensures EmaFrom(v, start, period, i) == Point(a, b, Middle(i as real, period as real))
    decreases i
  {
    hide LineSum, Follows, Point, Middle, Smooth;
    if i == start + period - 1 {
      assert start as real + period as real == (start + period) as real;
      assert (start + period) as real - 1.0 == i as real;
      WindowOfLine(v, a, b, start, start + period);
      MeanOfLine(a, b, start as real, period as real, WindowSum(v, start, start + period));
    } else {
      EmaOfLine(v, a, b, start, period, i - 1);
      assert (i - 1) as real == i as real - 1.0;
      SmoothFollows(v[i], EmaFrom(v, start, period, i - 1), period);
      LineFollows(a, b, i as real, period as real, EmaFrom(v, start, period, i));
    }
  }

  /** MACD of a straight line: the slope times half the gap between the two periods, so positive on
      rising prices; the signal is the same and the histogram zero. */
  lemma MacdOfLine(v: seq<real>, a: real, b: real, fast: nat, slow: nat, signal: nat, i: nat)
    requires Straight(v, a, b) && 0 < fast < slow <= |v| && signal > 0 && slow + signal - 2 <= i < |v|
    ensures var line := b * ((slow as real - fast as real) / 2.0);
            M.MacdAt(v, fast, slow, signal, i) == Some(M.Reading(line, line, 0.0))
  {
    hide Point, Middle;
    var line, flat := M.LineFrom(v, fast, slow), b * ((slow as real - fast as real) / 2.0);
    forall k: nat | k < |line| ensures line[k] == flat && flat == Point(flat, 0.0, k as real) {
      var t := slow - 1 + k;
      EmaOfLine(v, a, b, slow - fast, fast, t);
      EmaOfLine(v, a, b, 0, slow, t);
      Gap(a, b, t as real, fast as real, slow as real);
      LevelPoint(flat, k as real);
    }
    EmaOfLine(line, flat, 0.0, 0, signal, i - (slow - 1));
    LevelPoint(flat, Middle((i - (slow - 1)) as real, signal as real));
  }

  lemma Gap(a: real, b: real, t: real, fast: real, slow: real)
    ensures Point(a, b, Middle(t, fast)) - Point(a, b, Middle(t, slow)) == b * ((slow - fast) / 2.0)
  {
  }

  lemma LevelPoint(a: real, t: real)
    ensures Point(a, 0.0, t) == a
  {
  }

  // ---- the relative strength index ---------------------------------------------------------

  function Rise(v: seq<real>, t: nat): real
    requires 0 < t < |v|
  {
    if v[t] > v[t - 1] then v[t] - v[t - 1] else 0.0
  }

  function Drop(v: seq<real>, t: nat): real
    requires 0 < t < |v|
  {
    if v[t] < v[t - 1] then v[t - 1] - v[t] else 0.0
  }

  // The sum of the first `n` rises or falls.
  function FirstSum(v: seq<real>, up: bool, n: nat): real
    requires n < |v|
  {
    if n == 0 then 0.0 else FirstSum(v, up, n - 1) + if up then Rise(v, n) else Drop(v, n)
  }

  /** Averages of the rises, or of the falls: the mean of the first `period`, and then each new one
      weighs one part in `period`. */
  ghost predicate Averages(v: seq<real>, up: bool, period: nat, avg: seq<real>)
    requires period > 0 && |avg| == |v|
  {
    && (period < |v| ==> avg[period] * period as real == FirstSum(v, up, period))
    && forall t: nat | period < t < |v| ::
         avg[t] * period as real == avg[t - 1] * (period as real - 1.0) + if up then Rise(v, t) else Drop(v, t)
  }

  function Terms(v: seq<real>, up: bool): (r: seq<real>)
    ensures |r| == |v|
  {
    if up then W.Gains(v) else W.Losses(v)
  }

  lemma TermIs(v: seq<real>, up: bool, t: nat)
    requires 0 < t < |v|
    ensures Terms(v, up)[t] == if up then Rise(v, t) else Drop(v, t)
  {
    var diff := v[t] - v[t - 1];
    if up {
      assert W.Gains(v)[t] == W.Gain(diff);
    } else {
      assert W.Losses(v)[t] == W.Loss(diff);
    }
  }

  lemma WilderIs(x: real, prev: real, period: nat, next: real)
    requires period > 0 && next * period as real == prev * (period as real - 1.0) + x
    ensures W.Wilder(x, prev, period) == next
  {
    Quotient(next, period as real, prev * (period as real - 1.0) + x);
  }

  lemma {:induction false} FirstSumIs(v: seq<real>, up: bool, n: nat)
    requires n < |v|
    ensures WindowSum(Terms(v, up), 1, n + 1) == FirstSum(v, up, n)
  {
    hide Terms, Rise, Drop;
    if n > 0 {
      FirstSumIs(v, up, n - 1);
      TermIs(v, up, n);
    }
  }

  lemma {:induction false} AveragesAre(v: seq<real>, up: bool, period: nat, avg: seq<real>, i: nat)
    requires 0 < period <= i < |v| == |avg| && Averages(v, up, period, avg)
    ensures W.WilderAt(Terms(v, up), period, i) == avg[i]
    decreases i
  {
    hide Terms, Rise, Drop, FirstSum, W.Wilder;
    if i == period {
      FirstSumIs(v, up, period);
      Quotient(avg[i], period as real, FirstSum(v, up, period));
    } else {
      AveragesAre(v, up, period, avg, i - 1);
      var term := if up then Rise(v, i) else Drop(v, i);
      TermIs(v, up, i);
      W.WilderUnfold(Terms(v, up), period, i, term);
      WilderIs(term, avg[i - 1], period, avg[i]);
    }
  }

  lemma Quotient(q: real, n: real, x: real)
    requires n > 0.0 && q * n == x
    ensures x / n == q
  {
  }

  lemma StrengthIs(gain: real, loss: real)
    requires gain >= 0.0 && loss >= 0.0
    ensures gain + loss > 0.0 ==> W.Strength(gain, loss) * (gain + loss) == 100.0 * gain
    ensures gain + loss == 0.0 ==> W.Strength(gain, loss) == 0.0
  {
    if loss > 0.0 && gain + loss > 0.0 {
      var ratio := gain / loss;
      assert ratio * loss == gain;
      W.QuotientNonNegative(gain, loss);
      var part := 100.0 / (1.0 + ratio);
      assert part * (1.0 + ratio) == 100.0;
      assert (1.0 + ratio) * loss == gain + loss;
      assert part * (gain + loss) == (part * (1.0 + ratio)) * loss;
      if gain > 0.0 {
        assert W.Strength(gain, loss) == 100.0 - part;
      } else {
        assert ratio == 0.0;
        assert W.Strength(gain, loss) == 100.0 - part;
      }
    }
  }

  /** The index is the share of the average rise in the average movement, in per cent; nothing moving
      gives zero. */
  lemma RsiIs(v: seq<real>, period: nat, i: nat, up: seq<real>, down: seq<real>)
    requires 0 < period <= i < |v| == |up| == |down|
    requires Averages(v, true, period, up) && Averages(v, false, period, down)
    ensures up[i] >= 0.0 && down[i] >= 0.0 && W.RsiAt(v, period, i).Some?
    ensures var rsi := W.RsiAt(v, period, i).value;
            if up[i] + down[i] > 0.0 then rsi * (up[i] + down[i]) == 100.0 * up[i] else rsi == 0.0
  {
    hide W.Strength, Averages;
    AveragesAre(v, true, period, up, i);
    AveragesAre(v, false, period, down, i);
    W.AveragesNonNegative(v, period, i);
    StrengthIs(up[i], down[i]);
  }

  // ---- the ultimate oscillator -----------------------------------------------------------------

  function Lower(x: real, y: real): real {
    if x <= y then x else y
  }

  function Upper(x: real, y: real): real {
    if x <= y then y else x
  }

  // Every bar's low is at most its close and its close at most its high.
  ghost predicate Proper(b: U.Bars) {
    b.Aligned() && forall t | 0 <= t < |b.close| :: b.low[t] <= b.close[t] <= b.high[t]
  }

  /** The true range is the length of the least interval that holds the bar and the close before it;
      the pressure is the way from its lower end to the close. */
  lemma BarTerms(b: U.Bars, t: nat)
    requires Proper(b) && 0 < t < |b.close|
    ensures var lo, hi := Lower(b.low[t], b.close[t - 1]), Upper(b.high[t], b.close[t - 1]);
            U.TrueRange(b, t) == hi - lo && U.Pressure(b, t) == b.close[t] - lo
    ensures 0.0 <= U.Pressure(b, t) <= U.TrueRange(b, t)
  {
  }

  lemma {:induction false} WindowBelow(x: seq<real>, y: seq<real>, lo: nat, hi: nat)
    requires |x| == |y| && hi <= |x| && forall t | 0 <= t < |x| :: 0.0 <= x[t] <= y[t]
    ensures 0.0 <= WindowSum(x, lo, hi) <= WindowSum(y, lo, hi)
    decreases hi
  {
    if lo < hi {
      WindowBelow(x, y, lo, hi - 1);
    }
  }

  // The share of one window: none if its range is zero.
  function Part(a: real, b: real): real {
    if b == 0.0 then 0.0 else a / b
  }

  lemma PartInRange(a: real, b: real)
    requires 0.0 <= a <= b
    ensures 0.0 <= Part(a, b) <= 1.0
  {
    if b > 0.0 {
      var q := a / b;
      assert q * b == a;
      assert (1.0 - q) * b == b - a;
    }
  }

  lemma WeighIs(a1: real, b1: real, a2: real, b2: real, a3: real, b3: real)
    ensures 7.0 * U.Weigh(a1, b1, a2, b2, a3, b3) == 100.0 * (4.0 * Part(a1, b1) + 2.0 * Part(a2, b2) + Part(a3, b3))
  {
  }

  /** The oscillator weighs the shares of the short, middle and long windows four, two and one parts
      in seven, and on proper bars lies between 0 and 100. */
  lemma UltIs(b: U.Bars, p: U.Periods, i: nat)
    requires Proper(b) && 0 < p.short <= p.mid <= p.long <= i < |b.close|
    ensures U.UltAt(b, p, i).Some?
    ensures var bp, tr := U.Pressures(b), U.Ranges(b);
            var value := U.UltAt(b, p, i).value;
            && 7.0 * value == 100.0 * (4.0 * Part(U.Last(bp, p.short, i), U.Last(tr, p.short, i)) +
                                       2.0 * Part(U.Last(bp, p.mid, i), U.Last(tr, p.mid, i)) +
                                       Part(U.Last(bp, p.long, i), U.Last(tr, p.long, i)))
            && 0.0 <= value <= 100.0
  {
    hide U.Weigh, Part, U.Pressure, U.TrueRange;
    var bp, tr := U.Pressures(b), U.Ranges(b);
    forall t | 0 <= t < |bp| ensures 0.0 <= bp[t] <= tr[t] {
      if t > 0 {
        BarTerms(b, t);
      }
    }
    WindowBelow(bp, tr, i + 1 - p.short, i + 1);
    WindowBelow(bp, tr, i + 1 - p.mid, i + 1);
    WindowBelow(bp, tr, i + 1 - p.long, i + 1);
    var a1, b1, a2, b2 := U.Last(bp, p.short, i), U.Last(tr, p.short, i), U.Last(bp, p.mid, i), U.Last(tr, p.mid, i);
    var a3, b3 := U.Last(bp, p.long, i), U.Last(tr, p.long, i);
    PartInRange(a1, b1);
    PartInRange(a2, b2);
    PartInRange(a3, b3);
    WeighIs(a1, b1, a2, b2, a3, b3);
  }
}
