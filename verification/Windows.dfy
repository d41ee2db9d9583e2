/** Column-wise definitions: window sums, moving averages and what a panel of them is. */
module Windows {
  import opened Types

  // Sum of `v[lo..hi]`.
  function WindowSum(v: seq<real>, lo: nat, hi: nat): real
    requires hi <= |v|
  {
    if hi <= lo then 0.0 else WindowSum(v, lo, hi - 1) + v[hi - 1]
  }

  /** Sliding a window: add the entry that comes in, take away the one that leaves. */
  lemma {:induction false} WindowSlides(v: seq<real>, lo: nat, hi: nat)
    requires lo < hi < |v|
    ensures WindowSum(v, lo + 1, hi + 1) == WindowSum(v, lo, hi) + v[hi] - v[lo]
    decreases hi
  {
    if hi > lo + 1 {
      WindowSlides(v, lo, hi - 1);
    }
  }

  lemma {:induction false} WindowGrowsLeft(v: seq<real>, lo: nat, hi: nat)
    requires lo < hi <= |v|
    ensures WindowSum(v, lo, hi) == v[lo] + WindowSum(v, lo + 1, hi)
    decreases hi
  {
    if hi > lo + 1 {
      WindowGrowsLeft(v, lo, hi - 1);
    }
  }

  lemma {:induction false} WindowShifts(v: seq<real>, start: nat, lo: nat, hi: nat)
    requires start + hi <= |v|
    ensures WindowSum(v[start..], lo, hi) == WindowSum(v, start + lo, start + hi)
    decreases hi
  {
    if lo < hi {
      WindowShifts(v, start, lo, hi - 1);
    }
  }

  // ---- moving averages -----------------------------------------------------------------

  function Smooth(x: real, prev: real, period: nat): real {
    (x - prev) * (2.0 / (period as real + 1.0)) + prev
  }

  // The exponential average at `i`, seeded with the mean of the `period` entries from `start`.
  function EmaFrom(v: seq<real>, start: nat, period: nat, i: nat): real
    requires period > 0 && start + period - 1 <= i < |v|
    decreases i
  {
    if i == start + period - 1 then WindowSum(v, start, start + period) / (period as real)
    else Smooth(v[i], EmaFrom(v, start, period, i - 1), period)
  }

  function EmaAt(v: seq<real>, period: nat, i: nat): Option<real>
    requires i < |v|
  {
    if period == 0 || i + 1 < period then None else Some(EmaFrom(v, 0, period, i))
  }

  function SmaAt(v: seq<real>, period: nat, i: nat): Option<real>
    requires i < |v|
  {
    if period == 0 || i + 1 < period then None
    else Some(WindowSum(v, i + 1 - period, i + 1) / (period as real))
  }

  lemma EmaSeedShifts(v: seq<real>, start: nat, period: nat)
    requires period > 0 && start + period <= |v|
    ensures EmaFrom(v[start..], 0, period, period - 1) == EmaFrom(v, start, period, start + period - 1)
  {
    WindowShifts(v, start, 0, period);
  }

  /** A late seed is an ordinary average of the tail. */
  lemma {:induction false} EmaShifts(v: seq<real>, start: nat, period: nat, k: nat)
    requires period > 0 && period - 1 <= k && start + k < |v|
    ensures EmaFrom(v[start..], 0, period, k) == EmaFrom(v, start, period, start + k)
    decreases k
  {
    if k == period - 1 {
      EmaSeedShifts(v, start, period);
    } else {
      EmaShifts(v, start, period, k - 1);
      assert v[start..][k] == v[start + k];
    }
  }

  // ---- panels: rows of `names` entries, one per column ---------------------------------

  predicate IsShape(n: nat, names: nat) {
    names > 0 && n % names == 0
  }

  lemma MulMonotone(a: nat, b: nat, d: nat)
    requires a <= b
    ensures a * d <= b * d
  {
  }

  lemma DivUnique(k: nat, q: nat, r: nat, d: nat)
    requires r < d && k == q * d + r
    ensures k / d == q && k % d == r
  {
    var q', r' := k / d, k % d;
    assert k == q' * d + r';
    if q < q' {
      MulMonotone(q + 1, q', d);
    } else if q' < q {
      MulMonotone(q' + 1, q, d);
    }
  }

  lemma RowsTimesNames(n: nat, names: nat)
    requires IsShape(n, names)
    ensures n == (n / names) * names
  {
  }

  lemma CellInRange(t: nat, name: nat, names: nat, n: nat)
    requires IsShape(n, names) && name < names && t < n / names
    ensures t * names + name < n
    ensures (t * names + name) / names == t && (t * names + name) % names == name
  {
    RowsTimesNames(n, names);
    MulMonotone(t + 1, n / names, names);
    DivUnique(t * names + name, t, name, names);
  }

  lemma IndexSplits(k: nat, names: nat, n: nat)
    requires IsShape(n, names) && k < n
    ensures k % names < names && k / names < n / names && k == (k / names) * names + k % names
  {
    RowsTimesNames(n, names);
    QuotientBelow(k, names, n / names);
  }

  lemma QuotientBelow(k: nat, d: nat, q: nat)
    requires d > 0 && k < q * d
    ensures k / d < q
  {
    if q <= k / d {
      MulMonotone(q, k / d, d);
    }
  }

  function Column(panel: seq<real>, names: nat, name: nat): (c: seq<real>)
    requires IsShape(|panel|, names) && name < names
    ensures |c| == |panel| / names
  {
    seq(|panel| / names, t requires 0 <= t < |panel| / names =>
      CellInRange(t, name, names, |panel|); panel[t * names + name])
  }
}
