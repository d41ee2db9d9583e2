/** Welford's one-pass mean and squared deviation, in exact reals. */
module Welford {
  import opened Simplex

  // Sum of squared distances from `c`.
  function Deviation(v: seq<real>, c: real): real {
    if v == [] then 0.0 else Deviation(v[..|v| - 1], c) + Square(v[|v| - 1] - c)
  }

  // Sum of distances above `c`.
  function Excess(v: seq<real>, c: real): real {
    if v == [] then 0.0 else Excess(v[..|v| - 1], c) + (v[|v| - 1] - c)
  }

  // What moving the centre by `gap` adds to the deviation of `n` entries with excess `s`.
  function Moved(n: nat, gap: real, s: real): real {
    (n as real) * Square(gap) - 2.0 * gap * s
  }

  lemma MoveOne(n: nat, m: real, c: real, s: real, x: real)
    ensures Moved(n, c - m, s) + Square(x - c) - Square(x - m) == Moved(n + 1, c - m, s + (x - m))
  {
    assert Square(x - c) - Square(x - m) == Square(c - m) - 2.0 * (c - m) * (x - m);
    assert (n + 1) as real == n as real + 1.0;
  }

  lemma {:induction false} DeviationMoves(v: seq<real>, m: real, c: real)
    ensures Deviation(v, c) == Deviation(v, m) + Moved(|v|, c - m, Excess(v, m))
  {
    hide Square;
    if v == [] {
      NothingMoves(c - m);
    } else {
      hide Moved;
      var init, x := v[..|v| - 1], v[|v| - 1];
      DeviationMoves(init, m, c);
      MoveOne(|init|, m, c, Excess(init, m), x);
    }
  }

  lemma NothingMoves(gap: real)
    ensures Moved(0, gap, 0.0) == 0.0
  {
  }

  lemma {:induction false} ExcessIsSum(v: seq<real>, c: real)
    ensures Excess(v, c) == Sum(v) - (|v| as real) * c
  {
    if v != [] {
      var init, x := v[..|v| - 1], v[|v| - 1];
      assert v == init + [x];
      ExcessIsSum(init, c);
      SumAppend(init, x);
      assert |v| as real == |init| as real + 1.0;
    }
  }

  // The mean of `v`, or zero when there is nothing.
  ghost predicate IsMean(v: seq<real>, m: real) {
    Excess(v, m) == 0.0 && (v == [] ==> m == 0.0)
  }

  // One step of the recurrence.
  lemma StepValues(n: nat, m: real, x: real, next: real)
    requires n > 0 && next == m + (x - m) / (n as real)
    ensures (n as real) * (next - m) == x - m
    ensures ((n - 1) as real) * Square(next - m) + Square(x - next) == Product(x, m, next)
  {
    var k, g, d := n as real, next - m, x - m;
    assert k * g == d;
    assert (n - 1) as real == k - 1.0;
    assert x - next == d - g;
    assert (k - 1.0) * (g * g) == (d - g) * g by {
      assert (k - 1.0) * g == d - g;
    }
    assert (d - g) * g + (d - g) * (d - g) == d * (d - g);
  }

  lemma DeviationAtMean(v: seq<real>, m: real, c: real)
    requires Excess(v, m) == 0.0
    ensures Deviation(v, c) == Deviation(v, m) + (|v| as real) * Square(c - m)
  {
    DeviationMoves(v, m, c);
  }

  // The squared term one step adds.
  function Product(x: real, m: real, next: real): real {
    (x - m) * (x - next)
  }

  lemma StepDeviation(v: seq<real>, m: real, x: real, next: real)
    requires Excess(v, m) == 0.0
    requires (|v| as real) * Square(next - m) + Square(x - next) == Product(x, m, next)
    ensures Deviation(v + [x], next) == Deviation(v, m) + Product(x, m, next)
  {
    hide Square, Product;
    assert (v + [x])[..|v|] == v;
    DeviationAtMean(v, m, next);
  }

  lemma StepKeeps(v: seq<real>, m: real, x: real, n: real, next: real)
    requires IsMean(v, m) && n == (|v| + 1) as real && next == m + (x - m) / n
    ensures IsMean(v + [x], next)
    ensures Deviation(v + [x], next) == Deviation(v, m) + Product(x, m, next)
  {
    hide Square, Product, Deviation, Excess;
    StepValues(|v| + 1, m, x, next);
    MeanMoves(v, m, x, next);
    StepDeviation(v, m, x, next);
  }

  lemma MeanMoves(v: seq<real>, m: real, x: real, next: real)
    requires Excess(v, m) == 0.0 && ((|v| + 1) as real) * (next - m) == x - m
    ensures Excess(v + [x], next) == 0.0
  {
    assert (v + [x])[..|v|] == v;
    ExcessIsSum(v, m);
    ExcessIsSum(v, next);
    assert (|v| + 1) as real == |v| as real + 1.0;
    assert Excess(v, next) == (|v| as real) * (m - next);
  }

  lemma StepSlice(s: seq<real>, k: nat)
    requires k < |s|
    ensures s[..k + 1] == s[..k] + [s[k]] && |s[..k]| == k
  {
  }

  /** One pass gives the mean and the sum of squared distances from it, (0, 0) for nothing. */
  method WelfordMeanM2(slice: seq<real>) returns (mean: real, m2: real)
    ensures slice == [] ==> mean == 0.0
    ensures slice != [] ==> mean == Sum(slice) / (|slice| as real)
    ensures m2 == Deviation(slice, mean)
  {
    mean, m2 := 0.0, 0.0;
    var n := 0.0;
    for k := 0 to |slice|
      invariant n == k as real
      invariant IsMean(slice[..k], mean) && m2 == Deviation(slice[..k], mean)
    {
      var x := slice[k];
      StepSlice(slice, k);
      n := n + 1.0;
      var delta := x - mean;
      ghost var before := mean;
      mean := mean + delta / n;
      var delta2 := x - mean;
      m2 := m2 + delta * delta2;
      StepKeeps(slice[..k], before, x, n, mean);
    }
    assert slice[..|slice|] == slice;
    if slice != [] {
      MeanIsAverage(slice, mean);
    }
  }

  lemma MeanIsAverage(v: seq<real>, m: real)
    requires v != [] && Excess(v, m) == 0.0
    ensures m == Sum(v) / (|v| as real)
  {
    ExcessIsSum(v, m);
    var k := |v| as real;
    assert Sum(v) == k * m;
    assert (Sum(v) / k) * k == Sum(v);
    assert (m - Sum(v) / k) * k == 0.0;
  }

  /** No other centre is nearer. */
  lemma MeanIsNearest(v: seq<real>, m: real, c: real)
    requires Excess(v, m) == 0.0
    ensures Deviation(v, m) <= Deviation(v, c)
  {
    DeviationMoves(v, m, c);
    assert Square(c - m) >= 0.0;
  }
}
