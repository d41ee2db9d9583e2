/** MACD: two averages seeded on the same bar, and the average of their difference, shown once it is warm. */
module Macd {
  import opened Types
  import opened Windows
  import opened Panels

  datatype Reading = Reading(line: real, signal: real, histogram: real)

  predicate Legal(n: nat, fast: nat, slow: nat, signal: nat) {
    slow <= n && 0 < fast < slow && signal > 0
  }

  // Fast minus slow average, from the first bar on which both exist.
  function LineFrom(v: seq<real>, fast: nat, slow: nat): (r: seq<real>)
    requires 0 < fast < slow <= |v|
    ensures |r| == |v| - (slow - 1)
  {
    seq(|v| - (slow - 1), k requires 0 <= k < |v| - (slow - 1) =>
      EmaFrom(v, slow - fast, fast, slow - 1 + k) - EmaFrom(v, 0, slow, slow - 1 + k))
  }

  // The column definition: nothing until the signal line is warm.
  function MacdAt(v: seq<real>, fast: nat, slow: nat, signal: nat, i: nat): Option<Reading>
    requires i < |v|
  {
    if !Legal(|v|, fast, slow, signal) || i + 2 < slow + signal then None
    else
      var line := LineFrom(v, fast, slow);
      var k := i - (slow - 1);
      var s := EmaFrom(line, 0, signal, k);
      Some(Reading(line[k], s, line[k] - s))
  }

  /** One column, by way of its two averages. */
  method Macd(close: seq<real>, fast: nat, slow: nat, signal: nat) returns (out: array<Option<Reading>>)
    ensures fresh(out) && out.Length == |close|
    ensures forall i | 0 <= i < |close| :: out[i] == MacdAt(close, fast, slow, signal, i)
  {
    var n := |close|;
    out := new Option<Reading>[n](_ => None);
    if !Legal(n, fast, slow, signal) {
      return;
    }
    var line := ColumnLine(close, fast, slow);
    var average := Ema(line, signal);
    var raw := average[..];
    for j := 0 to |line|
      invariant forall i | 0 <= i < slow - 1 + j :: out[i] == MacdAt(close, fast, slow, signal, i)
      invariant forall i | slow - 1 + j <= i < n :: out[i] == None
    {
      assert raw[j] == EmaAt(line, signal, j);
      if raw[j].Some? {
        out[slow - 1 + j] := Some(Reading(line[j], raw[j].value, line[j] - raw[j].value));
      }
    }
  }

  method ColumnLine(close: seq<real>, fast: nat, slow: nat) returns (line: seq<real>)
    requires 0 < fast < slow <= |close|
    ensures line == LineFrom(close, fast, slow)
  {
    var offset := slow - fast;
    var fastAverage := Ema(close[offset..], fast);
    var slowAverage := Ema(close, slow);
    var fastEma, slowEma := fastAverage[..], slowAverage[..];
    line := [];
    for i := slow - 1 to |close|
      invariant |line| == i - (slow - 1) <= |LineFrom(close, fast, slow)|
      invariant forall k | 0 <= k < |line| :: line[k] == LineFrom(close, fast, slow)[k]
    {
      EmaShifts(close, offset, fast, i - offset);
      assert fastEma[i - offset] == EmaAt(close[offset..], fast, i - offset);
      assert slowEma[i] == EmaAt(close, slow, i);
      line := line + [fastEma[i - offset].value - slowEma[i].value];
    }
  }

  // ---- the panel ----------------------------------------------------------------------

  // Row `r` of this panel is row `slow - 1 + r` of the prices.
  function LinePanel(close: seq<real>, names: nat, fast: nat, slow: nat): (r: seq<real>)
    requires IsShape(|close|, names) && 0 < fast < slow <= |close| / names
    ensures |r| == (|close| / names - (slow - 1)) * names
    ensures IsShape(|r|, names) && |r| / names == |close| / names - (slow - 1)
  {
    var rows := |close| / names - (slow - 1);
    MulMonotone(0, rows, names);
    DivUnique(rows * names, rows, 0, names);
    seq(rows * names, k requires 0 <= k < rows * names =>
      QuotientBelow(k, names, rows);
      LineFrom(Column(close, names, k % names), fast, slow)[k / names])
  }

  lemma LineColumns(close: seq<real>, names: nat, fast: nat, slow: nat, p: nat)
    requires IsShape(|close|, names) && 0 < fast < slow <= |close| / names && p < names
    ensures Column(LinePanel(close, names, fast, slow), names, p) == LineFrom(Column(close, names, p), fast, slow)
  {
    var panel := LinePanel(close, names, fast, slow);
    forall t | 0 <= t < |panel| / names
      ensures Column(panel, names, p)[t] == LineFrom(Column(close, names, p), fast, slow)[t]
    {
      CellInRange(t, p, names, |panel|);
    }
  }

  // Both averages of every column at row `t`.
  ghost predicate BothAt(fastState: seq<real>, slowState: seq<real>, close: seq<real>, names: nat,
                         fast: nat, slow: nat, t: nat)
    requires IsShape(|close|, names) && 0 < fast < slow && slow - 1 <= t < |close| / names
  {
    && |fastState| == |slowState| == names
    && forall p | 0 <= p < names ::
         && fastState[p] == EmaFrom(Column(close, names, p), slow - fast, fast, t)
         && slowState[p] == EmaFrom(Column(close, names, p), 0, slow, t)
  }

  // The two seeds end on the same bar, the fast one starting `slow - fast` bars later.
  method SeedBoth(close: seq<real>, names: nat, fast: nat, slow: nat)
    returns (fastState: array<real>, slowState: array<real>)
    requires IsShape(|close|, names) && 0 < fast < slow <= |close| / names
    ensures fresh(fastState) && fresh(slowState) && fastState != slowState
    ensures BothAt(fastState[..], slowState[..], close, names, fast, slow, slow - 1)
  {
    slowState := AddRows(close, names, 0, slow);
    fastState := AddRows(close, names, slow - fast, slow);
    for name := 0 to names
      invariant forall p | 0 <= p < name ::
        && fastState[p] == EmaFrom(Column(close, names, p), slow - fast, fast, slow - 1)
        && slowState[p] == EmaFrom(Column(close, names, p), 0, slow, slow - 1)
      invariant forall p | name <= p < names ::
        && fastState[p] == WindowSum(Column(close, names, p), slow - fast, slow)
        && slowState[p] == WindowSum(Column(close, names, p), 0, slow)
    {
      fastState[name] := fastState[name] / (fast as real);
      slowState[name] := slowState[name] / (slow as real);
    }
  }

  method AdvanceBoth(close: seq<real>, names: nat, fast: nat, slow: nat, t: nat,
                     fastState: array<real>, slowState: array<real>)
    requires IsShape(|close|, names) && 0 < fast < slow <= t < |close| / names && fastState != slowState
    requires BothAt(fastState[..], slowState[..], close, names, fast, slow, t - 1)
    modifies fastState, slowState
    ensures BothAt(fastState[..], slowState[..], close, names, fast, slow, t)
  {
    for name := 0 to names
      invariant forall p | 0 <= p < name ::
        && fastState[p] == EmaFrom(Column(close, names, p), slow - fast, fast, t)
        && slowState[p] == EmaFrom(Column(close, names, p), 0, slow, t)
      invariant forall p | name <= p < names ::
        && fastState[p] == EmaFrom(Column(close, names, p), slow - fast, fast, t - 1)
        && slowState[p] == EmaFrom(Column(close, names, p), 0, slow, t - 1)
    {
      CellInRange(t, name, names, |close|);
      var x := close[t * names + name];
      assert Column(close, names, name)[t] == x;
      fastState[name] := Smooth(x, fastState[name], fast);
      slowState[name] := Smooth(x, slowState[name], slow);
    }
  }

  // The differences of one row, appended to the panel of lines.
  method AppendRow(close: seq<real>, names: nat, fast: nat, slow: nat, t: nat,
                   fastState: array<real>, slowState: array<real>, lines: seq<real>) returns (r: seq<real>)
    requires IsShape(|close|, names) && 0 < fast < slow && slow - 1 <= t < |close| / names
    requires BothAt(fastState[..], slowState[..], close, names, fast, slow, t)
    requires |lines| == (t - (slow - 1)) * names && lines <= LinePanel(close, names, fast, slow)
    ensures |r| == (t + 1 - (slow - 1)) * names && r <= LinePanel(close, names, fast, slow)
  {
    var row := t - (slow - 1);
    r := lines;
    for name := 0 to names
      invariant |r| == row * names + name && r <= LinePanel(close, names, fast, slow)
    {
      LineCell(close, names, fast, slow, row, name);
      r := r + [fastState[name] - slowState[name]];
    }
    NextRow(row, names);
  }

  lemma LineCell(close: seq<real>, names: nat, fast: nat, slow: nat, row: nat, name: nat)
    requires IsShape(|close|, names) && 0 < fast < slow && slow - 1 + row < |close| / names && name < names
    ensures var panel, column := LinePanel(close, names, fast, slow), Column(close, names, name);
            && row * names + name < |panel|
            && panel[row * names + name]
               == EmaFrom(column, slow - fast, fast, slow - 1 + row) - EmaFrom(column, 0, slow, slow - 1 + row)
  {
    CellInRange(row, name, names, |LinePanel(close, names, fast, slow)|);
  }

  method LinesOf(close: seq<real>, names: nat, fast: nat, slow: nat) returns (lines: seq<real>)
    requires IsShape(|close|, names) && 0 < fast < slow <= |close| / names
    ensures lines == LinePanel(close, names, fast, slow)
  {
    var fastState, slowState := SeedBoth(close, names, fast, slow);
    lines := AppendRow(close, names, fast, slow, slow - 1, fastState, slowState, []);
    for t := slow to |close| / names
      invariant BothAt(fastState[..], slowState[..], close, names, fast, slow, t - 1)
      invariant |lines| == (t - (slow - 1)) * names && lines <= LinePanel(close, names, fast, slow)
    {
      AdvanceBoth(close, names, fast, slow, t, fastState, slowState);
      lines := AppendRow(close, names, fast, slow, t, fastState, slowState, lines);
    }
  }

  // The panel that applies the column definition to every column.
  function MacdPanelOf(close: seq<real>, names: nat, fast: nat, slow: nat, signal: nat): (r: seq<Option<Reading>>)
    requires IsShape(|close|, names)
    ensures |r| == |close|
  {
    seq(|close|, k requires 0 <= k < |close| =>
      IndexSplits(k, names, |close|);
      MacdAt(Column(close, names, k % names), fast, slow, signal, k / names))
  }

  lemma PanelIllegal(close: seq<real>, names: nat, fast: nat, slow: nat, signal: nat)
    requires IsShape(|close|, names) && !Legal(|close| / names, fast, slow, signal)
    ensures forall k | 0 <= k < |close| :: MacdPanelOf(close, names, fast, slow, signal)[k] == None
  {
    forall k | 0 <= k < |close| ensures MacdPanelOf(close, names, fast, slow, signal)[k] == None {
      IndexSplits(k, names, |close|);
    }
  }

  lemma PanelEarly(close: seq<real>, names: nat, fast: nat, slow: nat, signal: nat, k: nat)
    requires IsShape(|close|, names) && 0 < fast < slow && signal > 0 && k < |close| && k < (slow - 1) * names
    ensures MacdPanelOf(close, names, fast, slow, signal)[k] == None
  {
    IndexSplits(k, names, |close|);
    QuotientBelow(k, names, slow - 1);
  }

  // Cell `j` of the panel of lines belongs to cell `(slow - 1) * names + j` of the prices.
  lemma PanelLate(close: seq<real>, names: nat, fast: nat, slow: nat, signal: nat, j: nat)
    requires IsShape(|close|, names) && Legal(|close| / names, fast, slow, signal)
    requires j < |LinePanel(close, names, fast, slow)|
    ensures (slow - 1) * names + j < |close|
    ensures var lines := LinePanel(close, names, fast, slow);
            MacdPanelOf(close, names, fast, slow, signal)[(slow - 1) * names + j] ==
            match EmaPanelOf(lines, names, signal)[j] {
              case None => None
              case Some(s) => Some(Reading(lines[j], s, lines[j] - s))
            }
  {
    var lines := LinePanel(close, names, fast, slow);
    var row, name := j / names, j % names;
    IndexSplits(j, names, |lines|);
    LineColumns(close, names, fast, slow, name);
    CellInRange(slow - 1 + row, name, names, |close|);
    assert (slow - 1 + row) * names + name == (slow - 1) * names + j;
  }

  /** One pass over all columns gives every column's own MACD. */
  method MacdPanel(close: seq<real>, names: nat, fast: nat, slow: nat, signal: nat)
    returns (out: array<Option<Reading>>)
    ensures fresh(out) && out.Length == |close|
    ensures !IsShape(|close|, names) ==> forall k | 0 <= k < |close| :: out[k] == None
    ensures IsShape(|close|, names) ==> out[..] == MacdPanelOf(close, names, fast, slow, signal)
  {
    out := new Option<Reading>[|close|](_ => None);
    if names == 0 || |close| % names != 0 {
      return;
    }
    if !Legal(|close| / names, fast, slow, signal) {
      PanelIllegal(close, names, fast, slow, signal);
      return;
    }
    var lines := LinesOf(close, names, fast, slow);
    var signals := EmaPanel(lines, names, signal);
    FillReadings(close, names, fast, slow, signal, lines, signals[..], out);
  }

  method FillReadings(close: seq<real>, names: nat, fast: nat, slow: nat, signal: nat,
                      lines: seq<real>, signals: seq<Option<real>>, out: array<Option<Reading>>)
    requires IsShape(|close|, names) && Legal(|close| / names, fast, slow, signal) && out.Length == |close|
    requires lines == LinePanel(close, names, fast, slow) && signals == EmaPanelOf(lines, names, signal)
    requires forall k | 0 <= k < |close| :: out[k] == None
    modifies out
    ensures out[..] == MacdPanelOf(close, names, fast, slow, signal)
  {
    ghost var want := MacdPanelOf(close, names, fast, slow, signal);
    MulMonotone(0, slow - 1, names);
    var first: nat := (slow - 1) * names;
    EndOfLines(close, names, fast, slow);
    forall k | 0 <= k < first && k < |close| ensures want[k] == None {
      PanelEarly(close, names, fast, slow, signal, k);
    }
    for j := 0 to |lines|
      invariant forall k | 0 <= k < first + j && k < |close| :: out[k] == want[k]
      invariant forall k | first + j <= k < |close| :: out[k] == None
    {
      PanelLate(close, names, fast, slow, signal, j);
      if signals[j].Some? {
        out[first + j] := Some(Reading(lines[j], signals[j].value, lines[j] - signals[j].value));
      }
    }
  }

  lemma EndOfLines(close: seq<real>, names: nat, fast: nat, slow: nat)
    requires IsShape(|close|, names) && 0 < fast < slow <= |close| / names
    ensures (slow - 1) * names + |LinePanel(close, names, fast, slow)| == |close|
  {
    RowsTimesNames(|close|, names);
    var rows := |close| / names;
    assert (slow - 1) * names + (rows - (slow - 1)) * names == rows * names;
  }
}
