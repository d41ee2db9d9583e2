/** The Ultimate Oscillator: six running sums over three windows that share one pass. */
module UltimateOscillator {
  import opened Types
  import opened Windows

  datatype Bars = Bars(high: seq<real>, low: seq<real>, close: seq<real>) {
    predicate Aligned() {
      |high| == |low| == |close|
    }
  }

  function Abs(x: real): real {
    if x < 0.0 then -x else x
  }

  function Pressure(b: Bars, i: nat): real
    requires b.Aligned() && 0 < i < |b.close|
  {
    b.close[i] - if b.low[i] < b.close[i - 1] then b.low[i] else b.close[i - 1]
  }

  function TrueRange(b: Bars, i: nat): real
    requires b.Aligned() && 0 < i < |b.close|
  {
    var range := b.high[i] - b.low[i];
    var up := Abs(b.close[i - 1] - b.high[i]);
    var wider := if up > range then up else range;
    var down := Abs(b.close[i - 1] - b.low[i]);
    if down > wider then down else wider
  }

  // The terms of every bar; the first has no previous close and is never summed.
  function Pressures(b: Bars): (r: seq<real>)
    requires b.Aligned()
    ensures |r| == |b.close|
  {
    seq(|b.close|, i requires 0 <= i < |b.close| => if i == 0 then 0.0 else Pressure(b, i))
  }

  function Ranges(b: Bars): (r: seq<real>)
    requires b.Aligned()
    ensures |r| == |b.close|
  {
    seq(|b.close|, i requires 0 <= i < |b.close| => if i == 0 then 0.0 else TrueRange(b, i))
  }

  datatype Periods = Periods(short: nat, mid: nat, long: nat)

  function Sorted(p: nat, q: nat, r: nat): (s: Periods)
    ensures s.short <= s.mid <= s.long && multiset{s.short, s.mid, s.long} == multiset{p, q, r}
  {
    var (lo, hi) := if p <= q then (p, q) else (q, p);
    if r <= lo then Periods(r, lo, hi) else if r <= hi then Periods(lo, r, hi) else Periods(lo, hi, r)
  }

  function Part(weight: real, a: real, b: real): real {
    if b != 0.0 then weight * (a / b) else 0.0
  }

  function Weigh(a1: real, b1: real, a2: real, b2: real, a3: real, b3: real): real {
    100.0 * ((Part(4.0, a1, b1) + Part(2.0, a2, b2) + Part(1.0, a3, b3)) / 7.0)
  }

  // The window of `period` bars that ends at bar `i`.
  function Last(v: seq<real>, period: nat, i: nat): real
    requires period <= i < |v|
  {
    WindowSum(v, i + 1 - period, i + 1)
  }

  // The definition: each window summed from scratch.
  function UltAt(b: Bars, p: Periods, i: nat): Option<real>
    requires b.Aligned() && i < |b.close| && p.short <= p.mid <= p.long
  {
    if p.short == 0 || i < p.long then None
    else
      var bp, tr := Pressures(b), Ranges(b);
      Some(Weigh(Last(bp, p.short, i), Last(tr, p.short, i), Last(bp, p.mid, i), Last(tr, p.mid, i),
                 Last(bp, p.long, i), Last(tr, p.long, i)))
  }

  // ---- running sums -------------------------------------------------------------------

  // The sum of the window of `period` bars ending at `i`, before bar `i` itself is added.
  ghost predicate Lags(sum: real, v: seq<real>, period: nat, i: nat) {
    0 < period <= i <= |v| && sum == WindowSum(v, i + 1 - period, i)
  }

  lemma Advances(sum: real, v: seq<real>, period: nat, i: nat, added: real, next: real)
    requires Lags(sum, v, period, i) && i < |v|
    requires added == sum + v[i] && next == added - v[i + 1 - period]
    ensures added == Last(v, period, i) && Lags(next, v, period, i + 1)
  {
    WindowGrowsLeft(v, i + 1 - period, i + 1);
  }

  // The sums of bars `long`'s warm-up, one loop for all three windows.
  method WarmUp(v: seq<real>, p: Periods) returns (a1: real, a2: real, a3: real)
    requires 0 < p.short <= p.mid <= p.long < |v|
    ensures Lags(a1, v, p.short, p.long) && Lags(a2, v, p.mid, p.long) && Lags(a3, v, p.long, p.long)
  {
    a1, a2, a3 := 0.0, 0.0, 0.0;
    for i := 1 to p.long
      invariant a3 == WindowSum(v, 1, i)
      invariant a2 == if i + p.mid > p.long then WindowSum(v, p.long - p.mid + 1, i) else 0.0
      invariant a1 == if i + p.short > p.long then WindowSum(v, p.long - p.short + 1, i) else 0.0
    {
      a3 := a3 + v[i];
      if i > p.long - p.mid {
        a2 := a2 + v[i];
      }
      if i > p.long - p.short {
        a1 := a1 + v[i];
      }
    }
  }

  /** The one-pass running sums give the definition at every bar. */
  method Ultosc(b: Bars, period1: nat, period2: nat, period3: nat) returns (out: array<Option<real>>)
    ensures fresh(out) && out.Length == |b.close|
    ensures !b.Aligned() ==> forall i | 0 <= i < |b.close| :: out[i] == None
    ensures b.Aligned() ==> forall i | 0 <= i < |b.close| :: out[i] == UltAt(b, Sorted(period1, period2, period3), i)
  {
    var n := |b.close|;
    out := new Option<real>[n](_ => None);
    if |b.high| != |b.low| || |b.high| != n {
      return;
    }
    var p := Sorted(period1, period2, period3);
    if p.short == 0 || n <= p.long {
      return;
    }
    Fill(b, p, out);
  }

  method Fill(b: Bars, p: Periods, out: array<Option<real>>)
    requires b.Aligned() && 0 < p.short <= p.mid <= p.long < |b.close| == out.Length
    requires forall i | 0 <= i < out.Length :: out[i] == None
    modifies out
    ensures forall i | 0 <= i < out.Length :: out[i] == UltAt(b, p, i)
  {
    var n := |b.close|;
    var bp, tr := Pressures(b), Ranges(b);
    var a1, a2, a3 := WarmUp(bp, p);
    var b1, b2, b3 := WarmUp(tr, p);
    for today := p.long to n
      invariant Lags(a1, bp, p.short, today) && Lags(a2, bp, p.mid, today) && Lags(a3, bp, p.long, today)
      invariant Lags(b1, tr, p.short, today) && Lags(b2, tr, p.mid, today) && Lags(b3, tr, p.long, today)
      invariant forall i | 0 <= i < today :: out[i] == UltAt(b, p, i)
      invariant forall i | today <= i < n :: out[i] == None
    {
      var next1, next2, next3, s1, s2, s3 := Step(bp, p, today, a1, a2, a3);
      var rest1, rest2, rest3, t1, t2, t3 := Step(tr, p, today, b1, b2, b3);
      out[today] := Some(Weigh(s1, t1, s2, t2, s3, t3));
      a1, a2, a3 := next1, next2, next3;
      b1, b2, b3 := rest1, rest2, rest3;
    }
  }

  // Adds today's term to the three sums, and drops the trailing terms afterwards.
  method Step(v: seq<real>, p: Periods, today: nat, a1: real, a2: real, a3: real)
    returns (next1: real, next2: real, next3: real, s1: real, s2: real, s3: real)
    requires today < |v|
    requires Lags(a1, v, p.short, today) && Lags(a2, v, p.mid, today) && Lags(a3, v, p.long, today)
    ensures s1 == Last(v, p.short, today) && s2 == Last(v, p.mid, today) && s3 == Last(v, p.long, today)
    ensures Lags(next1, v, p.short, today + 1) && Lags(next2, v, p.mid, today + 1) && Lags(next3, v, p.long, today + 1)
  {
    s1, s2, s3 := a1 + v[today], a2 + v[today], a3 + v[today];
    next1 := s1 - v[today + 1 - p.short];
    next2 := s2 - v[today + 1 - p.mid];
    next3 := s3 - v[today + 1 - p.long];
    Advances(a1, v, p.short, today, s1, next1);
    Advances(a2, v, p.mid, today, s2, next2);
    Advances(a3, v, p.long, today, s3, next3);
  }
}
