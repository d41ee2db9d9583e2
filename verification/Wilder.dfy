/** RSI by Wilder's smoothing, per column and as a one-pass panel. */
module Wilder {
  import opened Types
  import opened Windows
  import opened Panels

  function Gain(diff: real): real {
    if diff > 0.0 then diff else 0.0
  }

  function Loss(diff: real): real {
    if diff < 0.0 then -diff else 0.0
  }

  // The rises and falls of a column; the first entry has no predecessor and is never used.
  function Gains(v: seq<real>): (r: seq<real>)
    ensures |r| == |v|
  {
    seq(|v|, i requires 0 <= i < |v| => if i == 0 then 0.0 else Gain(v[i] - v[i - 1]))
  }

  function Losses(v: seq<real>): (r: seq<real>)
    ensures |r| == |v|
  {
    seq(|v|, i requires 0 <= i < |v| => if i == 0 then 0.0 else Loss(v[i] - v[i - 1]))
  }

  function Wilder(x: real, prev: real, period: nat): real
    requires period > 0
  {
    (prev * (period as real - 1.0) + x) / (period as real)
  }

  // Wilder's average at `i`, seeded with the mean of entries `1..=period`.
  function WilderAt(v: seq<real>, period: nat, i: nat): real
    requires 0 < period <= i < |v|
    decreases i
  {
    if i == period then WindowSum(v, 1, period + 1) / (period as real)
    else Wilder(v[i], WilderAt(v, period, i - 1), period)
  }

  ghost predicate NonNegative(v: seq<real>) {
    forall i | 0 <= i < |v| :: v[i] >= 0.0
  }

  lemma ChangesNonNegative(v: seq<real>)
    ensures NonNegative(Gains(v)) && NonNegative(Losses(v))
  {
  }

  // Both averages are defined, and never negative.
  lemma AveragesNonNegative(v: seq<real>, period: nat, i: nat)
    requires 0 < period <= i < |v|
    ensures WilderAt(Gains(v), period, i) >= 0.0 && WilderAt(Losses(v), period, i) >= 0.0
  {
    ChangesNonNegative(v);
    WilderNonNegative(Gains(v), period, i);
    WilderNonNegative(Losses(v), period, i);
  }

  lemma {:induction false} WindowNonNegative(v: seq<real>, lo: nat, hi: nat)
    requires NonNegative(v) && hi <= |v|
    ensures WindowSum(v, lo, hi) >= 0.0
    decreases hi
  {
    if lo < hi {
      WindowNonNegative(v, lo, hi - 1);
    }
  }

  lemma QuotientNonNegative(a: real, b: real)
    requires a >= 0.0 && b > 0.0
    ensures a / b >= 0.0
  {
  }

  lemma WilderStepNonNegative(x: real, prev: real, period: nat)
    requires period > 0 && x >= 0.0 && prev >= 0.0
    ensures Wilder(x, prev, period) >= 0.0
  {
    var share := prev * (period as real - 1.0);
    assert share >= 0.0;
    QuotientNonNegative(share + x, period as real);
  }

  lemma {:induction false} WilderNonNegative(v: seq<real>, period: nat, i: nat)
    requires NonNegative(v) && 0 < period <= i < |v|
    ensures WilderAt(v, period, i) >= 0.0
    decreases i
  {
    if i == period {
      WindowNonNegative(v, 1, period + 1);
      QuotientNonNegative(WindowSum(v, 1, period + 1), period as real);
    } else {
      WilderNonNegative(v, period, i - 1);
      WilderStepNonNegative(v[i], WilderAt(v, period, i - 1), period);
    }
  }

  // The oscillator from the two averages.
  function Strength(gain: real, loss: real): real
    requires gain >= 0.0 && loss >= 0.0
  {
    if gain == 0.0 && loss == 0.0 then 0.0
    else if loss == 0.0 then 100.0
    else
      QuotientNonNegative(gain, loss);
      100.0 - 100.0 / (1.0 + gain / loss)
  }

  lemma ShareOfHundred(ratio: real)
    requires ratio >= 0.0
    ensures 0.0 <= 100.0 / (1.0 + ratio) <= 100.0
  {
    var q := 100.0 / (1.0 + ratio);
    assert q * (1.0 + ratio) == 100.0;
    assert q >= 0.0;
    assert q * ratio >= 0.0;
  }

  lemma StrengthInRange(gain: real, loss: real)
    requires gain >= 0.0 && loss >= 0.0
    ensures 0.0 <= Strength(gain, loss) <= 100.0
  {
    if loss != 0.0 {
      QuotientNonNegative(gain, loss);
      ShareOfHundred(gain / loss);
    }
  }

  function RsiAt(v: seq<real>, period: nat, i: nat): Option<real>
    requires i < |v|
  {
    if period == 0 || i < period then None
    else
      AveragesNonNegative(v, period, i);
      Some(Strength(WilderAt(Gains(v), period, i), WilderAt(Losses(v), period, i)))
  }

  /** The oscillator always lies between 0 and 100. */
  lemma RsiInRange(v: seq<real>, period: nat, i: nat)
    requires i < |v| && RsiAt(v, period, i).Some?
    ensures 0.0 <= RsiAt(v, period, i).value <= 100.0
  {
    AveragesNonNegative(v, period, i);
    StrengthInRange(WilderAt(Gains(v), period, i), WilderAt(Losses(v), period, i));
  }

  lemma WilderUnfold(v: seq<real>, period: nat, i: nat, x: real)
    requires 0 < period < i < |v| && x == v[i]
    ensures WilderAt(v, period, i) == Wilder(x, WilderAt(v, period, i - 1), period)
  {
  }

  // One bar of smoothing, for both averages.
  lemma Advances(v: seq<real>, period: nat, i: nat, diff: real, gain: real, loss: real)
    requires 0 < period < i < |v| && diff == v[i] - v[i - 1]
    requires gain == WilderAt(Gains(v), period, i - 1) && loss == WilderAt(Losses(v), period, i - 1)
    ensures WilderAt(Gains(v), period, i) == Wilder(Gain(diff), gain, period)
    ensures WilderAt(Losses(v), period, i) == Wilder(Loss(diff), loss, period)
  {
    WilderUnfold(Gains(v), period, i, Gain(diff));
    WilderUnfold(Losses(v), period, i, Loss(diff));
  }

  // ---- one column ----------------------------------------------------------------------

  method SeedAverages(close: seq<real>, period: nat) returns (avgGain: real, avgLoss: real)
    requires 0 < period < |close|
    ensures avgGain == WilderAt(Gains(close), period, period)
    ensures avgLoss == WilderAt(Losses(close), period, period)
  {
    ghost var gains, losses := Gains(close), Losses(close);
    avgGain, avgLoss := 0.0, 0.0;
    for i := 1 to period + 1
      invariant avgGain == WindowSum(gains, 1, i) && avgLoss == WindowSum(losses, 1, i)
    {
      var diff := close[i] - close[i - 1];
      if diff > 0.0 {
        avgGain := avgGain + diff;
      } else {
        avgLoss := avgLoss - diff;
      }
    }
    avgGain, avgLoss := avgGain / (period as real), avgLoss / (period as real);
  }

  /** The oscillator of a column. */
  method Rsi(close: seq<real>, period: nat) returns (out: array<Option<real>>)
    ensures fresh(out) && out.Length == |close|
    ensures forall i | 0 <= i < |close| :: out[i] == RsiAt(close, period, i)
  {
    hide WilderAt, Wilder, Strength;
    var n := |close|;
    out := new Option<real>[n](_ => None);
    if n <= period || period == 0 {
      return;
    }
    var avgGain, avgLoss := SeedAverages(close, period);
    AveragesNonNegative(close, period, period);
    out[period] := Some(Strength(avgGain, avgLoss));
    for i := period + 1 to n
      invariant avgGain == WilderAt(Gains(close), period, i - 1) && avgLoss == WilderAt(Losses(close), period, i - 1)
      invariant forall k | 0 <= k < i :: out[k] == RsiAt(close, period, k)
      invariant forall k | i <= k < n :: out[k] == None
    {
      var diff := close[i] - close[i - 1];
      Advances(close, period, i, diff, avgGain, avgLoss);
      avgGain := Wilder(Gain(diff), avgGain, period);
      avgLoss := Wilder(Loss(diff), avgLoss, period);
      AveragesNonNegative(close, period, i);
      out[i] := Some(Strength(avgGain, avgLoss));
    }
  }

  // ---- the panel -----------------------------------------------------------------------

  function RsiPanelOf(close: seq<real>, names: nat, period: nat): (r: seq<Option<real>>)
    requires IsShape(|close|, names)
    ensures |r| == |close|
  {
    seq(|close|, k requires 0 <= k < |close| =>
      IndexSplits(k, names, |close|); RsiAt(Column(close, names, k % names), period, k / names))
  }

  lemma EarlyBlank(close: seq<real>, names: nat, period: nat, rows: nat)
    requires IsShape(|close|, names) && (period == 0 || rows <= period)
    ensures forall k | 0 <= k < rows * names && k < |close| :: RsiPanelOf(close, names, period)[k] == None
  {
    forall k | 0 <= k < rows * names && k < |close| ensures RsiPanelOf(close, names, period)[k] == None {
      IndexSplits(k, names, |close|);
      QuotientBelow(k, names, rows);
    }
  }

  // One cell and the cell above it.
  lemma Cells(close: seq<real>, names: nat, t: nat, name: nat)
    requires IsShape(|close|, names) && name < names && 0 < t < |close| / names
    ensures 0 <= t * names + name < |close| && 0 <= (t - 1) * names + name < |close|
    ensures Column(close, names, name)[t] == close[t * names + name]
    ensures Column(close, names, name)[t - 1] == close[(t - 1) * names + name]
  {
    CellInRange(t, name, names, |close|);
    CellInRange(t - 1, name, names, |close|);
  }

  // Columns `lo..hi`: rises and falls of rows `1..t` added up.
  ghost predicate SumsTo(gain: seq<real>, loss: seq<real>, close: seq<real>, names: nat, lo: nat, hi: nat, t: nat)
    requires IsShape(|close|, names) && |gain| == |loss| == names && t <= |close| / names && hi <= names
  {
    forall p | lo <= p < hi ::
      && gain[p] == WindowSum(Gains(Column(close, names, p)), 1, t)
      && loss[p] == WindowSum(Losses(Column(close, names, p)), 1, t)
  }

  // Columns `lo..hi`: Wilder's averages at row `t`.
  ghost predicate WildersAt(gain: seq<real>, loss: seq<real>, close: seq<real>, names: nat, period: nat,
                            lo: nat, hi: nat, t: nat)
    requires IsShape(|close|, names) && |gain| == |loss| == names && 0 < period <= t < |close| / names && hi <= names
  {
    forall p | lo <= p < hi ::
      && gain[p] == WilderAt(Gains(Column(close, names, p)), period, t)
      && loss[p] == WilderAt(Losses(Column(close, names, p)), period, t)
  }

  lemma SumsAdvance(v: seq<real>, t: nat, diff: real)
    requires 0 < t < |v| && diff == v[t] - v[t - 1]
    ensures WindowSum(Gains(v), 1, t + 1) == WindowSum(Gains(v), 1, t) + Gain(diff)
    ensures WindowSum(Losses(v), 1, t + 1) == WindowSum(Losses(v), 1, t) + Loss(diff)
  {
  }

  method AddChanges(close: seq<real>, names: nat, period: nat) returns (gain: array<real>, loss: array<real>)
    requires IsShape(|close|, names) && 0 < period < |close| / names
    ensures fresh(gain) && fresh(loss) && gain != loss && gain.Length == loss.Length == names
    ensures SumsTo(gain[..], loss[..], close, names, 0, names, period + 1)
  {
    hide Gains, Losses;
    gain := new real[names](_ => 0.0);
    loss := new real[names](_ => 0.0);
    for t := 1 to period + 1
      invariant SumsTo(gain[..], loss[..], close, names, 0, names, t)
    {
      for name := 0 to names
        invariant SumsTo(gain[..], loss[..], close, names, 0, name, t + 1)
        invariant SumsTo(gain[..], loss[..], close, names, name, names, t)
      {
        Cells(close, names, t, name);
        var diff := close[t * names + name] - close[(t - 1) * names + name];
        SumsAdvance(Column(close, names, name), t, diff);
        if diff > 0.0 {
          gain[name] := gain[name] + diff;
        } else {
          loss[name] := loss[name] - diff;
        }
      }
    }
  }

  lemma StrengthCell(close: seq<real>, names: nat, period: nat, t: nat, name: nat, gain: real, loss: real)
    requires IsShape(|close|, names) && name < names && 0 < period <= t < |close| / names
    requires gain == WilderAt(Gains(Column(close, names, name)), period, t)
    requires loss == WilderAt(Losses(Column(close, names, name)), period, t)
    ensures gain >= 0.0 && loss >= 0.0 && 0 <= t * names + name < |close|
    ensures RsiPanelOf(close, names, period)[t * names + name] == Some(Strength(gain, loss))
  {
    hide WilderAt, Wilder, Strength, Gains, Losses;
    CellInRange(t, name, names, |close|);
    AveragesNonNegative(Column(close, names, name), period, t);
  }

  method SeedRow(close: seq<real>, names: nat, period: nat, gain: array<real>, loss: array<real>,
                 out: array<Option<real>>)
    requires IsShape(|close|, names) && 0 < period < |close| / names
    requires gain != loss && gain.Length == loss.Length == names
    requires SumsTo(gain[..], loss[..], close, names, 0, names, period + 1)
    requires FilledTo(out[..], RsiPanelOf(close, names, period), period * names)
    modifies gain, loss, out
    ensures WildersAt(gain[..], loss[..], close, names, period, 0, names, period)
    ensures FilledTo(out[..], RsiPanelOf(close, names, period), (period + 1) * names)
  {
    hide Wilder, Strength, Gains, Losses;
    ghost var want := RsiPanelOf(close, names, period);
    MulMonotone(0, period, names);
    var first: nat := period * names;
    for name := 0 to names
      invariant WildersAt(gain[..], loss[..], close, names, period, 0, name, period)
      invariant SumsTo(gain[..], loss[..], close, names, name, names, period + 1)
      invariant FilledTo(out[..], want, first + name)
    {
      gain[name] := gain[name] / (period as real);
      loss[name] := loss[name] / (period as real);
      StrengthCell(close, names, period, period, name, gain[name], loss[name]);
      ghost var before := out[..];
      out[first + name] := Some(Strength(gain[name], loss[name]));
      FillNext(before, want, first + name, out[..]);
    }
    NextRow(period, names);
  }

  method Row(close: seq<real>, names: nat, period: nat, t: nat, gain: array<real>, loss: array<real>,
             out: array<Option<real>>)
    requires IsShape(|close|, names) && 0 < period < t < |close| / names
    requires gain != loss && gain.Length == loss.Length == names
    requires WildersAt(gain[..], loss[..], close, names, period, 0, names, t - 1)
    requires FilledTo(out[..], RsiPanelOf(close, names, period), t * names)
    modifies gain, loss, out
    ensures WildersAt(gain[..], loss[..], close, names, period, 0, names, t)
    ensures FilledTo(out[..], RsiPanelOf(close, names, period), (t + 1) * names)
  {
    hide WilderAt, Wilder, Strength, Gains, Losses, Gain, Loss;
    ghost var want := RsiPanelOf(close, names, period);
    MulMonotone(0, t, names);
    MulMonotone(0, t - 1, names);
    var row, prev: nat := t * names, (t - 1) * names;
    for name := 0 to names
      invariant WildersAt(gain[..], loss[..], close, names, period, 0, name, t)
      invariant WildersAt(gain[..], loss[..], close, names, period, name, names, t - 1)
      invariant FilledTo(out[..], want, row + name)
    {
      Cells(close, names, t, name);
      var diff := close[row + name] - close[prev + name];
      Advances(Column(close, names, name), period, t, diff, gain[name], loss[name]);
      gain[name] := Wilder(Gain(diff), gain[name], period);
      loss[name] := Wilder(Loss(diff), loss[name], period);
      StrengthCell(close, names, period, t, name, gain[name], loss[name]);
      ghost var before := out[..];
      out[row + name] := Some(Strength(gain[name], loss[name]));
      FillNext(before, want, row + name, out[..]);
    }
    NextRow(t, names);
  }

  /** One pass over all columns gives every column's own oscillator. */
  method RsiPanel(close: seq<real>, names: nat, period: nat) returns (out: array<Option<real>>)
    ensures fresh(out) && out.Length == |close|
    ensures !IsShape(|close|, names) ==> forall k | 0 <= k < |close| :: out[k] == None
    ensures IsShape(|close|, names) ==> out[..] == RsiPanelOf(close, names, period)
  {
    hide WilderAt, Wilder, Strength, Gains, Losses;
    out := new Option<real>[|close|](_ => None);
    if names == 0 || |close| % names != 0 {
      return;
    }
    var time := |close| / names;
    RowsTimesNames(|close|, names);
    if time <= period || period == 0 {
      EarlyBlank(close, names, period, time);
      return;
    }
    var gain, loss := AddChanges(close, names, period);
    EarlyBlank(close, names, period, period);
    SeedRow(close, names, period, gain, loss, out);
    Rows(close, names, period, gain, loss, out);
  }

  method Rows(close: seq<real>, names: nat, period: nat, gain: array<real>, loss: array<real>,
              out: array<Option<real>>)
    requires IsShape(|close|, names) && 0 < period < |close| / names
    requires gain != loss && gain.Length == loss.Length == names
    requires WildersAt(gain[..], loss[..], close, names, period, 0, names, period)
    requires FilledTo(out[..], RsiPanelOf(close, names, period), (period + 1) * names)
    modifies gain, loss, out
    ensures out[..] == RsiPanelOf(close, names, period)
  {
    hide WilderAt, Gains, Losses, Strength;
    for t := period + 1 to |close| / names
      invariant WildersAt(gain[..], loss[..], close, names, period, 0, names, t - 1)
      invariant FilledTo(out[..], RsiPanelOf(close, names, period), t * names)
    {
      Row(close, names, period, t, gain, loss, out);
    }
    RowsTimesNames(|close|, names);
  }
}
