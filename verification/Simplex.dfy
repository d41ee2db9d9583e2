/** Euclidean projection onto the unit simplex, in exact reals. */
module Simplex {
  import opened Types

  datatype OptimizeError = EmptyInput | DegenerateProjection
  datatype Result<+T> = Ok(value: T) | Err(error: OptimizeError)

  // ---- sums --------------------------------------------------------------------

  function Sum(v: seq<real>): real {
    if v == [] then 0.0 else v[0] + Sum(v[1..])
  }

  lemma {:induction false} SumAppend(v: seq<real>, x: real)
    ensures Sum(v + [x]) == Sum(v) + x
  {
    if v == [] {
      assert v + [x] == [x];
    } else {
      assert (v + [x])[1..] == v[1..] + [x];
      SumAppend(v[1..], x);
    }
  }

  function Clip(x: real): real {
    if x > 0.0 then x else 0.0
  }

  function Shifted(v: seq<real>, theta: real): seq<real> {
    seq(|v|, i requires 0 <= i < |v| => Clip(v[i] - theta))
  }

  // Total mass above the threshold.
  function Above(v: seq<real>, theta: real): real {
    if v == [] then 0.0 else Clip(v[0] - theta) + Above(v[1..], theta)
  }

  lemma {:induction false} AboveIsSum(v: seq<real>, theta: real)
    ensures Sum(Shifted(v, theta)) == Above(v, theta)
  {
    if v != [] {
      AboveIsSum(v[1..], theta);
      assert Shifted(v, theta)[1..] == Shifted(v[1..], theta);
    }
  }

  lemma {:induction false} AboveSplit(v: seq<real>, k: nat, theta: real)
    requires k < |v|
    ensures Above(v, theta) == Clip(v[k] - theta) + Above(v[..k] + v[k + 1..], theta)
  {
    if k == 0 {
      assert v[..0] + v[1..] == v[1..];
    } else {
      AboveSplit(v[1..], k - 1, theta);
      assert (v[..k] + v[k + 1..])[1..] == v[1..][..k - 1] + v[1..][k..];
    }
  }

  // The mass above a threshold does not depend on the order of the entries.
  lemma {:induction false} AbovePermuted(a: seq<real>, b: seq<real>, theta: real)
    requires multiset(a) == multiset(b)
    ensures Above(a, theta) == Above(b, theta)
    decreases |a|
  {
    if a == [] {
      assert |multiset(b)| == 0;
    } else {
      assert a[0] in multiset(b);
      var k :| 0 <= k < |b| && b[k] == a[0];
      SameRest(a, b, k);
      AbovePermuted(a[1..], b[..k] + b[k + 1..], theta);
      AboveSplit(b, k, theta);
    }
  }

  lemma SameRest(a: seq<real>, b: seq<real>, k: nat)
    requires multiset(a) == multiset(b)
    requires a != [] && k < |b| && b[k] == a[0]
    ensures multiset(a[1..]) == multiset(b[..k] + b[k + 1..])
  {
    DropOne(a, 0);
    DropOne(b, k);
    assert a[..0] + a[1..] == a[1..];
  }

  lemma DropOne(a: seq<real>, k: nat)
    requires k < |a|
    ensures multiset(a[..k] + a[k + 1..]) == multiset(a) - multiset{a[k]}
  {
    assert a == a[..k] + [a[k]] + a[k + 1..];
  }

  // ---- sorting, largest first -----------------------------------------------------

  ghost predicate Descending(u: seq<real>) {
    forall i, j | 0 <= i < j < |u| :: u[i] >= u[j]
  }

  function InsertDescending(x: real, u: seq<real>): seq<real> {
    if u == [] || x >= u[0] then [x] + u else [u[0]] + InsertDescending(x, u[1..])
  }

  function SortDescending(v: seq<real>): seq<real> {
    if v == [] then [] else InsertDescending(v[0], SortDescending(v[1..]))
  }

  lemma {:induction false} InsertPermutes(x: real, u: seq<real>)
    ensures multiset(InsertDescending(x, u)) == multiset(u) + multiset{x}
  {
    if u == [] || x >= u[0] {
    } else {
      assert u == [u[0]] + u[1..];
      InsertPermutes(x, u[1..]);
    }
  }

  lemma {:induction false} InsertBelow(x: real, u: seq<real>, top: real)
    requires top >= x && forall i | 0 <= i < |u| :: top >= u[i]
    ensures forall i | 0 <= i < |InsertDescending(x, u)| :: top >= InsertDescending(x, u)[i]
  {
    if u == [] || x >= u[0] {
    } else {
      InsertBelow(x, u[1..], top);
    }
  }

  lemma {:induction false} InsertSorted(x: real, u: seq<real>)
    requires Descending(u)
    ensures Descending(InsertDescending(x, u))
  {
    if u == [] || x >= u[0] {
    } else {
      InsertSorted(x, u[1..]);
      InsertBelow(x, u[1..], u[0]);
    }
  }

  lemma {:induction false} SortSorted(v: seq<real>)
    ensures Descending(SortDescending(v)) && multiset(SortDescending(v)) == multiset(v)
    ensures |SortDescending(v)| == |v|
  {
    if v != [] {
      SortSorted(v[1..]);
      InsertSorted(v[0], SortDescending(v[1..]));
      InsertPermutes(v[0], SortDescending(v[1..]));
      assert v == [v[0]] + v[1..];
    }
    assert |multiset(SortDescending(v))| == |multiset(v)|;
  }

  // ---- the threshold -----------------------------------------------------------------

  // The threshold if exactly the first `k` entries stay positive.
  function Theta(u: seq<real>, k: nat): real
    requires 0 < k <= |u|
  {
    (Sum(u[..k]) - 1.0) / (k as real)
  }

  predicate Keeps(u: seq<real>, i: nat)
    requires i < |u|
  {
    u[i] - Theta(u, i + 1) > 0.0
  }

  // `rho` is one past the last entry the scan keeps.
  ghost predicate IsRho(u: seq<real>, rho: nat) {
    && 0 < rho <= |u|
    && Keeps(u, rho - 1)
    && forall i | rho <= i < |u| :: !Keeps(u, i)
  }

  lemma FirstAlwaysKept(u: seq<real>)
    requires u != []
    ensures Keeps(u, 0)
  {
    assert u[..1] == [u[0]];
    assert Sum(u[..1]) == u[0];
  }

  lemma SumTake(u: seq<real>, k: nat)
    requires k < |u|
    ensures Sum(u[..k + 1]) == Sum(u[..k]) + u[k]
  {
    assert u[..k + 1] == u[..k] + [u[k]];
    SumAppend(u[..k], u[k]);
  }

  // The entry after the last kept one is not above the threshold.
  lemma NextNotAbove(u: seq<real>, rho: nat)
    requires IsRho(u, rho) && rho < |u|
    ensures u[rho] <= Theta(u, rho)
  {
    SumTake(u, rho);
    var s, k := Sum(u[..rho]), rho as real;
    assert !Keeps(u, rho);
    assert u[rho] <= (s + u[rho] - 1.0) / (k + 1.0);
    DropTail(u[rho], s - 1.0, k);
  }

  lemma DropTail(x: real, s: real, k: real)
    requires k > 0.0 && x <= (s + x) / (k + 1.0)
    ensures x <= s / k
  {
    assert x * k <= s;
    assert x == (x * k) / k;
    DivideMonotone(x * k, s, k);
  }

  lemma DivideMonotone(a: real, b: real, k: real)
    requires k > 0.0 && a <= b
    ensures a / k <= b / k
  {
    assert (b - a) / k >= 0.0;
  }

  lemma {:induction false} AboveKept(u: seq<real>, theta: real, k: nat)
    requires k <= |u|
    requires forall i | 0 <= i < k :: u[i] > theta
    requires forall i | k <= i < |u| :: u[i] <= theta
    ensures Above(u, theta) == Sum(u[..k]) - (k as real) * theta
  {
    if u == [] {
    } else if k == 0 {
      assert u[..0] == [];
      AboveKept(u[1..], theta, 0);
    } else {
      AboveKept(u[1..], theta, k - 1);
      assert u[..k][1..] == u[1..][..k - 1];
    }
  }

  /** At the scan's threshold the clipped entries sum to one. */
  lemma ThresholdSumsToOne(v: seq<real>, rho: nat)
    requires IsRho(SortDescending(v), rho)
    ensures Sum(Shifted(v, Theta(SortDescending(v), rho))) == 1.0
  {
    var u := SortDescending(v);
    var theta := Theta(u, rho);
    SortSorted(v);
    MassAtThreshold(u, rho);
    AbovePermuted(v, u, theta);
    AboveIsSum(v, theta);
  }

  lemma MassAtThreshold(u: seq<real>, rho: nat)
    requires Descending(u) && IsRho(u, rho)
    ensures Above(u, Theta(u, rho)) == 1.0
  {
    KeptAreFirst(u, rho);
    AboveKept(u, Theta(u, rho), rho);
    ThetaSolves(Sum(u[..rho]), rho as real);
  }

  lemma ThetaSolves(s: real, k: real)
    requires k > 0.0
    ensures s - k * ((s - 1.0) / k) == 1.0
  {
  }

  // The threshold separates the kept entries from the rest.
  lemma KeptAreFirst(u: seq<real>, rho: nat)
    requires Descending(u) && IsRho(u, rho)
    ensures forall i | 0 <= i < rho :: u[i] > Theta(u, rho)
    ensures forall i | rho <= i < |u| :: u[i] <= Theta(u, rho)
  {
    var theta := Theta(u, rho);
    assert u[rho - 1] > theta;
    forall i | 0 <= i < rho ensures u[i] > theta {
      assert u[i] >= u[rho - 1];
    }
    if rho < |u| {
      NextNotAbove(u, rho);
      forall i | rho <= i < |u| ensures u[i] <= theta {
        assert u[rho] >= u[i];
      }
    }
  }

  // ---- optimality --------------------------------------------------------------------

  ghost predicate OnSimplex(w: seq<real>) {
    (forall i | 0 <= i < |w| :: w[i] >= 0.0) && Sum(w) == 1.0
  }

  function SquaredDistance(a: seq<real>, b: seq<real>): real
    requires |a| == |b|
  {
    if a == [] then 0.0 else Square(a[0] - b[0]) + SquaredDistance(a[1..], b[1..])
  }

  function Square(x: real): real {
    x * x
  }

  lemma ProductPositive(x: real, y: real, p: real)
    requires x > 0.0 && y > 0.0 && p == x * y
    ensures p > 0.0
  {
  }

  lemma SquarePositive(x: real)
    requires x != 0.0
    ensures Square(x) > 0.0
  {
    if x > 0.0 {
      ProductPositive(x, x, Square(x));
    } else {
      ProductPositive(-x, -x, Square(x));
    }
  }

  // What moving an entry by `gap` costs at the threshold.
  function Pull(theta: real, gap: real): real {
    2.0 * theta * gap
  }

  lemma OneCoordinate(v: real, y: real, theta: real)
    requires y >= 0.0
    ensures var w := Clip(v - theta);
            Square(v - y) >= Square(v - w) + Square(w - y) + Pull(theta, w - y)
  {
    var w := Clip(v - theta);
    assert (v - y) * (v - y) == (v - w) * (v - w) + (w - y) * (w - y) + 2.0 * ((w - y) * (v - w));
    if v > theta {
      assert (w - y) * (v - w) == theta * (w - y);
    } else {
      assert y * (theta - v) >= 0.0;
    }
  }

  lemma {:induction false} AllCoordinates(v: seq<real>, y: seq<real>, theta: real)
    requires |v| == |y| && forall i | 0 <= i < |y| :: y[i] >= 0.0
    ensures var w := Shifted(v, theta);
            SquaredDistance(v, y) >=
            SquaredDistance(v, w) + SquaredDistance(w, y) + Pull(theta, Sum(w) - Sum(y))
  {
    if v != [] {
      var w := Shifted(v, theta);
      AllCoordinates(v[1..], y[1..], theta);
      assert w[1..] == Shifted(v[1..], theta);
      OneCoordinate(v[0], y[0], theta);
      AddUp(Square(v[0] - y[0]), Square(v[0] - w[0]) + Square(w[0] - y[0]), w[0] - y[0],
            SquaredDistance(v[1..], y[1..]),
            SquaredDistance(v[1..], w[1..]) + SquaredDistance(w[1..], y[1..]), Sum(w[1..]) - Sum(y[1..]),
            theta, Sum(w) - Sum(y));
    }
  }

  lemma AddUp(far: real, near: real, gap: real, far': real, near': real, gap': real, theta: real, total: real)
    requires far >= near + Pull(theta, gap) && far' >= near' + Pull(theta, gap')
    requires total == gap + gap'
    ensures far + far' >= near + near' + Pull(theta, total)
  {
    assert 2.0 * theta * total == 2.0 * theta * gap + 2.0 * theta * gap';
  }

  lemma {:induction false} DistancePositive(a: seq<real>, b: seq<real>)
    requires |a| == |b|
    ensures SquaredDistance(a, b) >= 0.0
    ensures a != b ==> SquaredDistance(a, b) > 0.0
  {
    if a != [] {
      DistancePositive(a[1..], b[1..]);
      assert Square(a[0] - b[0]) >= 0.0;
      if a[0] != b[0] {
        SquarePositive(a[0] - b[0]);
      }
      assert a != b ==> a[0] != b[0] || a[1..] != b[1..] by {
        assert a == [a[0]] + a[1..] && b == [b[0]] + b[1..];
      }
    }
  }

  // `w` is the one point of the simplex nearest to `v`.
  ghost predicate IsProjection(v: seq<real>, w: seq<real>) {
    && |w| == |v| && OnSimplex(w)
    && forall y | |y| == |v| && OnSimplex(y) :: NearerThan(v, w, y)
  }

  ghost predicate NearerThan(v: seq<real>, w: seq<real>, y: seq<real>)
    requires |v| == |w| == |y|
  {
    SquaredDistance(v, w) <= SquaredDistance(v, y) && (y != w ==> SquaredDistance(v, w) < SquaredDistance(v, y))
  }

  /** Clipping at the scan's threshold is the Euclidean projection, and the only one. */
  lemma ClippingProjects(v: seq<real>, rho: nat)
    requires IsRho(SortDescending(v), rho)
    ensures IsProjection(v, Shifted(v, Theta(SortDescending(v), rho)))
  {
    var theta := Theta(SortDescending(v), rho);
    var w := Shifted(v, theta);
    ThresholdSumsToOne(v, rho);
    forall y | |y| == |v| && OnSimplex(y) ensures NearerThan(v, w, y) {
      AllCoordinates(v, y, theta);
      DistancePositive(w, y);
    }
  }

  // ---- input without a positive entry -----------------------------------------------

  function EqualWeights(n: nat): seq<real>
    requires n > 0
  {
    seq(n, i => 1.0 / (n as real))
  }

  lemma {:induction false} ConstantSum(v: seq<real>, x: real)
    requires forall i | 0 <= i < |v| :: v[i] == x
    ensures Sum(v) == (|v| as real) * x
  {
    if v != [] {
      ConstantSum(v[1..], x);
    }
  }

  lemma EqualWeightsOnSimplex(n: nat)
    requires n > 0
    ensures OnSimplex(EqualWeights(n))
  {
    ConstantSum(EqualWeights(n), 1.0 / (n as real));
    assert 1.0 / (n as real) >= 0.0;
  }

  lemma {:induction false} RhoFrom(u: seq<real>, k: nat) returns (rho: nat)
    requires 0 < k <= |u| && forall i | k <= i < |u| :: !Keeps(u, i)
    ensures IsRho(u, rho)
  {
    if Keeps(u, k - 1) {
      rho := k;
    } else {
      FirstAlwaysKept(u);
      rho := RhoFrom(u, k - 1);
    }
  }

  lemma OnlyOneProjection(v: seq<real>, a: seq<real>, b: seq<real>)
    requires IsProjection(v, a) && IsProjection(v, b)
    ensures a == b
  {
    assert NearerThan(v, a, b) && NearerThan(v, b, a);
  }

  /** Equal weights are the projection exactly when all entries are equal. */
  lemma EqualWeightsProjectIff(v: seq<real>)
    requires v != []
    ensures IsProjection(v, EqualWeights(|v|)) <==> forall i, j | 0 <= i < |v| && 0 <= j < |v| :: v[i] == v[j]
  {
    SortSorted(v);
    var rho := RhoFrom(SortDescending(v), |v|);
    ClippingProjects(v, rho);
    SharesIff(v, Theta(SortDescending(v), rho));
  }

  lemma SharesIff(v: seq<real>, theta: real)
    requires v != [] && IsProjection(v, Shifted(v, theta))
    ensures IsProjection(v, EqualWeights(|v|)) <==> forall i, j | 0 <= i < |v| && 0 <= j < |v| :: v[i] == v[j]
  {
    if IsProjection(v, EqualWeights(|v|)) {
      OnlyOneProjection(v, Shifted(v, theta), EqualWeights(|v|));
      EqualShares(v, theta);
    }
    if forall i, j | 0 <= i < |v| && 0 <= j < |v| :: v[i] == v[j] {
      SharesWhenEqual(v, theta);
    }
  }

  lemma SharesWhenEqual(v: seq<real>, theta: real)
    requires v != [] && Sum(Shifted(v, theta)) == 1.0
    requires forall i, j | 0 <= i < |v| && 0 <= j < |v| :: v[i] == v[j]
    ensures Shifted(v, theta) == EqualWeights(|v|)
  {
    var w := Shifted(v, theta);
    ConstantSum(w, w[0]);
    AllShares(w, w[0]);
  }

  /** Input without a positive entry need not project to equal weights. */
  lemma DegenerateInput()
    ensures var v := [0.0, -1.0];
            (forall i | 0 <= i < |v| :: v[i] <= 0.0) && !IsProjection(v, EqualWeights(|v|))
  {
    var v := [0.0, -1.0];
    EqualWeightsProjectIff(v);
    assert v[0] != v[1];
  }

  lemma EqualShares(v: seq<real>, theta: real)
    requires v != [] && Shifted(v, theta) == EqualWeights(|v|)
    ensures forall i | 0 <= i < |v| :: v[i] == theta + 1.0 / (|v| as real)
  {
    var share := 1.0 / (|v| as real);
    assert share > 0.0;
    forall i | 0 <= i < |v| ensures v[i] == theta + share {
      assert Shifted(v, theta)[i] == EqualWeights(|v|)[i];
    }
  }

  lemma AllShares(w: seq<real>, x: real)
    requires w != [] && (|w| as real) * x == 1.0 && forall i | 0 <= i < |w| :: w[i] == x
    ensures w == EqualWeights(|w|)
  {
    var n := |w| as real;
    assert (1.0 / n) * n == 1.0;
    assert (x - 1.0 / n) * n == 0.0;
    assert x == 1.0 / n;
  }

  // ---- normalisation ------------------------------------------------------------------

  const TINY: real := 0.000000000001

  function Clipped(w: seq<real>): seq<real> {
    seq(|w|, i requires 0 <= i < |w| => Clip(w[i]))
  }

  // Clips negatives, then scales to sum one; equal weights if nothing is left.
  function Normalized(w: seq<real>): seq<real> {
    if w == [] then w
    else if Sum(Clipped(w)) <= TINY then EqualWeights(|w|)
    else Scaled(Clipped(w), Sum(Clipped(w)))
  }

  /** Normalising always lands on the simplex, and leaves a point of it alone. */
  lemma NormalizedProjects(w: seq<real>)
    requires w != []
    ensures |Normalized(w)| == |w| && OnSimplex(Normalized(w))
    ensures OnSimplex(w) ==> Normalized(w) == w
  {
    var clipped := Clipped(w);
    assert OnSimplex(w) ==> clipped == w;
    if Sum(clipped) <= TINY {
      EqualWeightsOnSimplex(|w|);
    } else {
      ScaledOnSimplex(clipped, Sum(clipped));
    }
  }

  method NormalizeLongOnly(w: seq<real>) returns (r: seq<real>)
    ensures r == Normalized(w)
  {
    if w == [] {
      return w;
    }
    var clipped := Clipped(w);
    var sum := SumLoop(clipped);
    if sum <= TINY {
      return EqualWeights(|w|);
    }
    r := Scaled(clipped, sum);
  }

  function Scaled(v: seq<real>, c: real): seq<real>
    requires c != 0.0
  {
    seq(|v|, i requires 0 <= i < |v| => v[i] / c)
  }

  lemma SelfQuotient(c: real)
    requires c != 0.0
    ensures c / c == 1.0
  {
    var q := c / c;
    assert q * c == c;
    assert (q - 1.0) * c == 0.0;
  }

  lemma ScaledOnSimplex(v: seq<real>, c: real)
    requires c > 0.0 && c == Sum(v) && forall i | 0 <= i < |v| :: v[i] >= 0.0
    ensures OnSimplex(Scaled(v, c))
    ensures c == 1.0 ==> Scaled(v, c) == v
  {
    ScaledSum(v, c);
    SelfQuotient(c);
    forall i | 0 <= i < |v| ensures Scaled(v, c)[i] >= 0.0 {
      DivideMonotone(0.0, v[i], c);
    }
  }

  method SumLoop(v: seq<real>) returns (sum: real)
    ensures sum == Sum(v)
  {
    sum := 0.0;
    for i := 0 to |v|
      invariant sum == Sum(v[..i])
    {
      SumTake(v, i);
      sum := sum + v[i];
    }
    assert v[..|v|] == v;
  }

  lemma {:induction false} ScaledSum(v: seq<real>, c: real)
    requires c != 0.0
    ensures Sum(Scaled(v, c)) == Sum(v) / c
  {
    if v != [] {
      ScaledSum(v[1..], c);
      assert Scaled(v, c)[1..] == Scaled(v[1..], c);
    }
  }

  // The scan for the threshold: one past the last entry above its running mean.
  method LastKept(u: seq<real>) returns (rho: nat)
    requires u != []
    ensures IsRho(u, rho)
  {
    FirstAlwaysKept(u);
    var cssv := 0.0;
    rho := 0;
    for i := 0 to |u|
      invariant cssv == Sum(u[..i])
      invariant rho <= i && (rho == 0 <==> i == 0)
      invariant rho > 0 ==> Keeps(u, rho - 1)
      invariant forall j | rho <= j < i :: !Keeps(u, j)
    {
      SumTake(u, i);
      cssv := cssv + u[i];
      var theta := (cssv - 1.0) / (i as real + 1.0);
      assert (u[i] - theta > 0.0) == Keeps(u, i) by {
        assert (i + 1) as real == i as real + 1.0;
      }
      if u[i] - theta > 0.0 {
        rho := i + 1;
      }
    }
  }

  /** The projection: sort, scan for the threshold, clip, normalise. */
  method ProjectSimplex(v: seq<real>) returns (r: Result<seq<real>>)
    ensures r == Err(EmptyInput) <==> v == []
    ensures r == Err(DegenerateProjection) <==> v != [] && forall i | 0 <= i < |v| :: v[i] <= 0.0
    ensures r.Ok? ==> IsProjection(v, r.value)
  {
    if v == [] {
      return Err(EmptyInput);
    }
    if forall i | 0 <= i < |v| :: v[i] <= 0.0 {
      return Err(DegenerateProjection);
    }
    SortSorted(v);
    var u := SortDescending(v);
    var rho := LastKept(u);
    ClippingProjects(v, rho);
    var total := SumLoop(u[..rho]);
    var theta := (total - 1.0) / (rho as real);
    var projected := seq(|v|, i requires 0 <= i < |v| => Clip(v[i] - theta));
    assert projected == Shifted(v, Theta(u, rho));
    NormalizedProjects(projected);
    var w := NormalizeLongOnly(projected);
    r := Ok(w);
  }
}
