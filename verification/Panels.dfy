/** One-pass moving averages over columns and over whole panels, equal to the column definitions. */
module Panels {
  import opened Types
  import opened Windows

  // ---- one column ------------------------------------------------------------------------

  method SumWindow(v: seq<real>, hi: nat) returns (sum: real)
    requires hi <= |v|
    ensures sum == WindowSum(v, 0, hi)
  {
    sum := 0.0;
    for i := 0 to hi
      invariant sum == WindowSum(v, 0, i)
    {
      sum := sum + v[i];
    }
  }

  method Ema(values: seq<real>, period: nat) returns (out: array<Option<real>>)
    ensures fresh(out) && out.Length == |values|
    ensures forall i | 0 <= i < |values| :: out[i] == EmaAt(values, period, i)
  {
    var n := |values|;
    out := new Option<real>[n](_ => None);
    if n < period || period == 0 {
      return;
    }
    var sum := SumWindow(values, period);
    out[period - 1] := Some(sum / (period as real));
    for i := period to n
      invariant forall k | 0 <= k < i :: out[k] == EmaAt(values, period, k)
      invariant forall k | i <= k < n :: out[k] == None
    {
      out[i] := Some(Smooth(values[i], out[i - 1].value, period));
    }
  }

  method Sma(values: seq<real>, period: nat) returns (out: array<Option<real>>)
    ensures fresh(out) && out.Length == |values|
    ensures forall i | 0 <= i < |values| :: out[i] == SmaAt(values, period, i)
  {
    var n := |values|;
    out := new Option<real>[n](_ => None);
    if n < period || period == 0 {
      return;
    }
    var windowSum := SumWindow(values, period);
    out[period - 1] := Some(windowSum / (period as real));
    for i := period to n
      invariant windowSum == WindowSum(values, i - period, i)
      invariant forall k | 0 <= k < i :: out[k] == SmaAt(values, period, k)
      invariant forall k | i <= k < n :: out[k] == None
    {
      WindowSlides(values, i - period, i);
      windowSum := windowSum + (values[i] - values[i - period]);
      out[i] := Some(windowSum / (period as real));
    }
  }

  // ---- panels, row by row -------------------------------------------------------------

  // Per-column sums of the rows `lo..hi`.
  method AddRows(close: seq<real>, names: nat, lo: nat, hi: nat) returns (sum: array<real>)
    requires IsShape(|close|, names) && lo <= hi <= |close| / names
    ensures fresh(sum) && sum.Length == names
    ensures forall p | 0 <= p < names :: sum[p] == WindowSum(Column(close, names, p), lo, hi)
  {
    sum := new real[names](_ => 0.0);
    for t := lo to hi
      invariant forall p | 0 <= p < names :: sum[p] == WindowSum(Column(close, names, p), lo, t)
    {
      for name := 0 to names
        invariant forall p | 0 <= p < name :: sum[p] == WindowSum(Column(close, names, p), lo, t + 1)
        invariant forall p | name <= p < names :: sum[p] == WindowSum(Column(close, names, p), lo, t)
      {
        CellInRange(t, name, names, |close|);
        assert Column(close, names, name)[t] == close[t * names + name];
        sum[name] := sum[name] + close[t * names + name];
      }
    }
  }

  // The panels that apply a column definition to every column.
  function EmaPanelOf(close: seq<real>, names: nat, period: nat): (r: seq<Option<real>>)
    requires IsShape(|close|, names)
    ensures |r| == |close|
  {
    seq(|close|, k requires 0 <= k < |close| =>
      IndexSplits(k, names, |close|); EmaAt(Column(close, names, k % names), period, k / names))
  }

  function SmaPanelOf(close: seq<real>, names: nat, period: nat): (r: seq<Option<real>>)
    requires IsShape(|close|, names)
    ensures |r| == |close|
  {
    seq(|close|, k requires 0 <= k < |close| =>
      IndexSplits(k, names, |close|); SmaAt(Column(close, names, k % names), period, k / names))
  }

  // `out` agrees with `want` before `k` and is still blank from there on.
  ghost predicate FilledTo(out: seq<Option<real>>, want: seq<Option<real>>, k: nat) {
    && |out| == |want|
    && (forall e | 0 <= e < k && e < |out| :: out[e] == want[e])
    && (forall e | k <= e < |out| :: out[e] == None)
  }

  lemma FillNext(out: seq<Option<real>>, want: seq<Option<real>>, k: nat, out': seq<Option<real>>)
    requires FilledTo(out, want, k) && k < |out| && out' == out[k := want[k]]
    ensures FilledTo(out', want, k + 1)
  {
  }

  lemma EmaBlank(close: seq<real>, names: nat, period: nat, rows: nat, k: nat)
    requires IsShape(|close|, names) && (period == 0 || rows + 1 <= period) && k < rows * names && k < |close|
    ensures EmaPanelOf(close, names, period)[k] == None && SmaPanelOf(close, names, period)[k] == None
  {
    IndexSplits(k, names, |close|);
    QuotientBelow(k, names, rows);
  }

  lemma PanelCells(close: seq<real>, names: nat, period: nat, t: nat, name: nat)
    requires IsShape(|close|, names) && name < names && t < |close| / names
    ensures t * names + name < |close|
    ensures Column(close, names, name)[t] == close[t * names + name]
    ensures EmaPanelOf(close, names, period)[t * names + name] == EmaAt(Column(close, names, name), period, t)
    ensures SmaPanelOf(close, names, period)[t * names + name] == SmaAt(Column(close, names, name), period, t)
  {
    CellInRange(t, name, names, |close|);
  }

  lemma NextRow(t: nat, names: nat)
    ensures t * names + names == (t + 1) * names
  {
  }

  // Every column's average at row `t`.
  ghost predicate AveragesAt(state: seq<real>, close: seq<real>, names: nat, period: nat, t: nat)
    requires IsShape(|close|, names) && period > 0 && period - 1 <= t < |close| / names
  {
    |state| == names && forall p | 0 <= p < names :: state[p] == EmaFrom(Column(close, names, p), 0, period, t)
  }

  method EmaSeedRow(close: seq<real>, names: nat, period: nat, state: array<real>, out: array<Option<real>>)
    requires IsShape(|close|, names) && 0 < period <= |close| / names && state.Length == names
    requires forall p | 0 <= p < names :: state[p] == WindowSum(Column(close, names, p), 0, period)
    requires FilledTo(out[..], EmaPanelOf(close, names, period), (period - 1) * names)
    modifies state, out
    ensures AveragesAt(state[..], close, names, period, period - 1)
    ensures FilledTo(out[..], EmaPanelOf(close, names, period), period * names)
  {
    hide EmaPanelOf, WindowSum;
    var seedRow := (period - 1) * names;
    for name := 0 to names
      invariant forall p | 0 <= p < name :: state[p] == EmaFrom(Column(close, names, p), 0, period, period - 1)
      invariant forall p | name <= p < names :: state[p] == WindowSum(Column(close, names, p), 0, period)
      invariant FilledTo(out[..], EmaPanelOf(close, names, period), seedRow + name)
    {
      PanelCells(close, names, period, period - 1, name);
      state[name] := state[name] / (period as real);
      ghost var before := out[..];
      out[seedRow + name] := Some(state[name]);
      FillNext(before, EmaPanelOf(close, names, period), seedRow + name, out[..]);
    }
    NextRow(period - 1, names);
  }

  method EmaRow(close: seq<real>, names: nat, period: nat, t: nat, state: array<real>, out: array<Option<real>>)
    requires IsShape(|close|, names) && 0 < period <= t < |close| / names
    requires AveragesAt(state[..], close, names, period, t - 1)
    requires FilledTo(out[..], EmaPanelOf(close, names, period), t * names)
    modifies state, out
    ensures AveragesAt(state[..], close, names, period, t)
    ensures FilledTo(out[..], EmaPanelOf(close, names, period), (t + 1) * names)
  {
    var row := t * names;
    for name := 0 to names
      invariant forall p | 0 <= p < name :: state[p] == EmaFrom(Column(close, names, p), 0, period, t)
      invariant forall p | name <= p < names :: state[p] == EmaFrom(Column(close, names, p), 0, period, t - 1)
      invariant FilledTo(out[..], EmaPanelOf(close, names, period), row + name)
    {
      PanelCells(close, names, period, t, name);
      var y := Smooth(close[row + name], state[name], period);
      state[name] := y;
      ghost var before := out[..];
      out[row + name] := Some(y);
      FillNext(before, EmaPanelOf(close, names, period), row + name, out[..]);
    }
    NextRow(t, names);
  }

  /** One pass in time over all columns gives every column's own average. */
  method EmaPanel(close: seq<real>, names: nat, period: nat) returns (out: array<Option<real>>)
    ensures fresh(out) && out.Length == |close|
    ensures !IsShape(|close|, names) ==> forall k | 0 <= k < |close| :: out[k] == None
    ensures IsShape(|close|, names) ==> out[..] == EmaPanelOf(close, names, period)
  {
    out := new Option<real>[|close|](_ => None);
    if names == 0 || |close| % names != 0 {
      return;
    }
    var time := |close| / names;
    RowsTimesNames(|close|, names);
    if time < period || period == 0 {
      AllBlank(close, names, period, time);
      return;
    }
    var state := AddRows(close, names, 0, period);
    AllBlank(close, names, period, period - 1);
    EmaSeedRow(close, names, period, state, out);
    EmaRows(close, names, period, state, out);
  }

  method EmaRows(close: seq<real>, names: nat, period: nat, state: array<real>, out: array<Option<real>>)
    requires IsShape(|close|, names) && 0 < period <= |close| / names
    requires AveragesAt(state[..], close, names, period, period - 1)
    requires FilledTo(out[..], EmaPanelOf(close, names, period), period * names)
    modifies state, out
    ensures out[..] == EmaPanelOf(close, names, period)
  {
    for t := period to |close| / names
      invariant AveragesAt(state[..], close, names, period, t - 1)
      invariant FilledTo(out[..], EmaPanelOf(close, names, period), t * names)
    {
      EmaRow(close, names, period, t, state, out);
    }
    RowsTimesNames(|close|, names);
  }

  // Rows before the first full window are blank.
  lemma AllBlank(close: seq<real>, names: nat, period: nat, rows: nat)
    requires IsShape(|close|, names) && (period == 0 || rows + 1 <= period)
    ensures forall k | 0 <= k < rows * names && k < |close| ::
              EmaPanelOf(close, names, period)[k] == None && SmaPanelOf(close, names, period)[k] == None
  {
    forall k | 0 <= k < rows * names && k < |close|
      ensures EmaPanelOf(close, names, period)[k] == None && SmaPanelOf(close, names, period)[k] == None
    {
      EmaBlank(close, names, period, rows, k);
    }
  }

  // The window sums that end at row `t`.
  ghost predicate SumsAt(state: seq<real>, close: seq<real>, names: nat, period: nat, t: nat)
    requires IsShape(|close|, names) && period > 0 && period - 1 <= t < |close| / names
  {
    && |state| == names
    && forall p | 0 <= p < names :: state[p] == WindowSum(Column(close, names, p), t + 1 - period, t + 1)
  }

  method SmaSeedRow(close: seq<real>, names: nat, period: nat, sum: array<real>, out: array<Option<real>>)
    requires IsShape(|close|, names) && 0 < period <= |close| / names
    requires SumsAt(sum[..], close, names, period, period - 1)
    requires FilledTo(out[..], SmaPanelOf(close, names, period), (period - 1) * names)
    modifies out
    ensures FilledTo(out[..], SmaPanelOf(close, names, period), period * names)
  {
    var seedRow := (period - 1) * names;
    for name := 0 to names
      invariant FilledTo(out[..], SmaPanelOf(close, names, period), seedRow + name)
    {
      PanelCells(close, names, period, period - 1, name);
      ghost var before := out[..];
      out[seedRow + name] := Some(sum[name] / (period as real));
      FillNext(before, SmaPanelOf(close, names, period), seedRow + name, out[..]);
    }
    NextRow(period - 1, names);
  }

  lemma SlideCell(close: seq<real>, names: nat, period: nat, t: nat, name: nat)
    requires IsShape(|close|, names) && name < names && 0 < period <= t < |close| / names
    ensures t * names + name < |close| && (t - period) * names + name < |close|
    ensures var column := Column(close, names, name);
            && WindowSum(column, t + 1 - period, t + 1)
               == WindowSum(column, t - period, t) + (close[t * names + name] - close[(t - period) * names + name])
            && SmaPanelOf(close, names, period)[t * names + name]
               == Some(WindowSum(column, t + 1 - period, t + 1) / (period as real))
  {
    PanelCells(close, names, period, t, name);
    PanelCells(close, names, period, t - period, name);
    WindowSlides(Column(close, names, name), t - period, t);
  }

  method SmaRow(close: seq<real>, names: nat, period: nat, t: nat, sum: array<real>, out: array<Option<real>>)
    requires IsShape(|close|, names) && 0 < period <= t < |close| / names
    requires SumsAt(sum[..], close, names, period, t - 1)
    requires FilledTo(out[..], SmaPanelOf(close, names, period), t * names)
    modifies sum, out
    ensures SumsAt(sum[..], close, names, period, t)
    ensures FilledTo(out[..], SmaPanelOf(close, names, period), (t + 1) * names)
  {
    hide SmaPanelOf;
    MulMonotone(0, t - period, names);
    var row, past: nat := t * names, (t - period) * names;
    ghost var want := SmaPanelOf(close, names, period);
    for name := 0 to names
      invariant forall p | 0 <= p < name :: sum[p] == WindowSum(Column(close, names, p), t + 1 - period, t + 1)
      invariant forall p | name <= p < names :: sum[p] == WindowSum(Column(close, names, p), t - period, t)
      invariant FilledTo(out[..], want, row + name)
    {
      ghost var before := out[..];
      SlideCell(close, names, period, t, name);
      sum[name] := sum[name] + (close[row + name] - close[past + name]);
      out[row + name] := Some(sum[name] / (period as real));
      FillNext(before, want, row + name, out[..]);
    }
    NextRow(t, names);
  }

  /** One pass of sliding sums gives every column's own window mean. */
  method SmaPanel(close: seq<real>, names: nat, period: nat) returns (out: array<Option<real>>)
    ensures fresh(out) && out.Length == |close|
    ensures !IsShape(|close|, names) ==> forall k | 0 <= k < |close| :: out[k] == None
    ensures IsShape(|close|, names) ==> out[..] == SmaPanelOf(close, names, period)
  {
    out := new Option<real>[|close|](_ => None);
    if names == 0 || |close| % names != 0 {
      return;
    }
    var time := |close| / names;
    RowsTimesNames(|close|, names);
    if time < period || period == 0 {
      AllBlank(close, names, period, time);
      return;
    }
    var sum := AddRows(close, names, 0, period);
    AllBlank(close, names, period, period - 1);
    SmaSeedRow(close, names, period, sum, out);
    SmaRows(close, names, period, sum, out);
  }

  method SmaRows(close: seq<real>, names: nat, period: nat, sum: array<real>, out: array<Option<real>>)
    requires IsShape(|close|, names) && 0 < period <= |close| / names
    requires SumsAt(sum[..], close, names, period, period - 1)
    requires FilledTo(out[..], SmaPanelOf(close, names, period), period * names)
    modifies sum, out
    ensures out[..] == SmaPanelOf(close, names, period)
  {
    for t := period to |close| / names
      invariant SumsAt(sum[..], close, names, period, t - 1)
      invariant FilledTo(out[..], SmaPanelOf(close, names, period), t * names)
    {
      SmaRow(close, names, period, t, sum, out);
    }
    RowsTimesNames(|close|, names);
  }
}
