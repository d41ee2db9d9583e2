/** Cluster variance in closed form, and the whole allocation for uncorrelated assets: the
    inverse-variance portfolio, whatever the order of the assets. */
module UncorrelatedAssets {
  import opened Types
  import opened Simplex
  import opened Linkage
  import opened Bisection
  import opened RiskShares

  // ---- variances and their reciprocals --------------------------------------------------

  function Variance(cov: Covariance, idx: seq<nat>, a: nat): real
    requires SquareCov(cov) && InRange(idx, |cov|) && a < |idx|
  {
    assert idx[a] in idx;
    cov[idx[a]][idx[a]]
  }

  // Every variance is big enough to be used as it is, and small enough for its reciprocal to be.
  ghost predicate Ordinary(cov: Covariance, idx: seq<nat>)
    requires SquareCov(cov) && InRange(idx, |cov|)
  {
    forall a | 0 <= a < |idx| :: 0.000000000001 < Variance(cov, idx, a) <= 1000000000000.0
  }

  function Between(cov: Covariance, idx: seq<nat>, a: nat, b: nat): real
    requires SquareCov(cov) && InRange(idx, |cov|) && a < |idx| && b < |idx|
  {
    assert idx[a] in idx && idx[b] in idx;
    cov[idx[a]][idx[b]]
  }

  ghost predicate Uncorrelated(cov: Covariance, idx: seq<nat>)
    requires SquareCov(cov) && InRange(idx, |cov|)
  {
    forall a, b | 0 <= a < |idx| && 0 <= b < |idx| && a != b :: Between(cov, idx, a, b) == 0.0
  }

  function Reciprocal(x: real): real
    requires x != 0.0
  {
    1.0 / x
  }

  lemma ReciprocalIs(x: real)
    requires x > 0.0
    ensures Reciprocal(x) * x == 1.0 && Reciprocal(x) > 0.0
  {
    assert Reciprocal(x) * x == 1.0;
    PositiveFactor(Reciprocal(x), x, 1.0);
  }

  ghost function Precisions(cov: Covariance, idx: seq<nat>): (r: seq<real>)
    requires SquareCov(cov) && InRange(idx, |cov|) && Ordinary(cov, idx)
    ensures |r| == |idx|
  {
    seq(|idx|, a requires 0 <= a < |idx| => Reciprocal(Variance(cov, idx, a)))
  }

  // The sum of the reciprocals of the variances.
  ghost function Precision(cov: Covariance, idx: seq<nat>): real
    requires SquareCov(cov) && InRange(idx, |cov|) && Ordinary(cov, idx)
  {
    Sum(Precisions(cov, idx))
  }

  lemma {:induction false} SumAtLeast(v: seq<real>, x: real)
    requires v != [] && forall k | 0 <= k < |v| :: v[k] >= x
    requires x > 0.0
    ensures Sum(v) >= x && (|v| > 1 ==> Sum(v) > x)
  {
    if |v| > 1 {
      SumAtLeast(v[1..], x);
    } else {
      OneMass(v);
    }
  }

  lemma PrecisionsAre(cov: Covariance, idx: seq<nat>)
    requires SquareCov(cov) && InRange(idx, |cov|) && Ordinary(cov, idx)
    ensures forall a | 0 <= a < |idx| ::
              Precisions(cov, idx)[a] * Variance(cov, idx, a) == 1.0 && Precisions(cov, idx)[a] >= 0.000000000001
    ensures idx != [] ==> Precision(cov, idx) > 0.0
    ensures |idx| > 1 ==> Precision(cov, idx) > 0.000000000001
  {
    var v := Precisions(cov, idx);
    forall a | 0 <= a < |idx| ensures v[a] * Variance(cov, idx, a) == 1.0 && v[a] >= 0.000000000001 {
      ReciprocalIs(Variance(cov, idx, a));
      BigEnough(v[a], Variance(cov, idx, a));
    }
    if idx != [] {
      SumAtLeast(v, 0.000000000001);
    }
  }

  lemma BigEnough(r: real, x: real)
    requires r * x == 1.0 && 0.0 < x <= 1000000000000.0 && r > 0.0
    ensures r >= 0.000000000001
  {
    var gap := (r - 0.000000000001) * x;
    assert gap == 1.0 - 0.000000000001 * x;
    NonNegativeFactor(r - 0.000000000001, x, gap);
  }

  lemma NonNegativeFactor(x: real, c: real, p: real)
    requires c > 0.0 && p >= 0.0 && p == x * c
    ensures x >= 0.0
  {
  }

  // ---- the variance of a cluster -----------------------------------------------------------

  lemma ScoresArePrecisions(cov: Covariance, idx: seq<nat>)
    requires SquareCov(cov) && InRange(idx, |cov|) && Ordinary(cov, idx)
    ensures InverseScores(DiagonalRisks(cov, idx)) == Precisions(cov, idx)
  {
    PrecisionsAre(cov, idx);
    var risks := DiagonalRisks(cov, idx);
    assert forall a | 0 <= a < |idx| :: risks[a] == Variance(cov, idx, a);
    assert forall a | 0 <= a < |idx| :: Precisions(cov, idx)[a] > 0.0;
  }

  lemma ScoresPositive(risks: seq<real>)
    requires |risks| > 1 && forall a | 0 <= a < |risks| :: 0.0 < risks[a] <= 1000000000000.0
    ensures forall a | 0 <= a < |risks| :: InverseScores(risks)[a] * risks[a] == 1.0
    ensures Clipped(InverseScores(risks)) == InverseScores(risks) && Sum(InverseScores(risks)) > TINY
  {
    var v := InverseScores(risks);
    forall a | 0 <= a < |risks| ensures v[a] * risks[a] == 1.0 && v[a] >= 0.000000000001 {
      assert v[a] == Reciprocal(risks[a]);
      ReciprocalIs(risks[a]);
      BigEnough(v[a], risks[a]);
    }
    SumAtLeast(v, 0.000000000001);
  }

  // Weights in inverse proportion to the risks.
  lemma InverseWeights(risks: seq<real>)
    requires |risks| > 1 && forall a | 0 <= a < |risks| :: 0.0 < risks[a] <= 1000000000000.0
    ensures Sum(InverseScores(risks)) > 0.0
    ensures var w := InverseRiskWeights(risks);
            && |w| == |risks| && OnSimplex(w)
            && forall a | 0 <= a < |risks| :: w[a] * risks[a] == Reciprocal(Sum(InverseScores(risks)))
  {
    hide OnSimplex, Clipped, Sum, Reciprocal;
    ScoresPositive(risks);
    var v := InverseScores(risks);
    var total := Sum(v);
    NormalizedProjects(v);
    var w := InverseRiskWeights(risks);
    forall a | 0 <= a < |risks| ensures w[a] * risks[a] == Reciprocal(total) {
      assert w[a] == v[a] / total;
      Rescaled(v[a], risks[a], total, w[a]);
    }
  }

  /** The weights inside a cluster: weight times variance is the same for every asset, one over the
      precision of the cluster. */
  lemma InsideWeights(cov: Covariance, idx: seq<nat>)
    requires SquareCov(cov) && InRange(idx, |cov|) && Ordinary(cov, idx) && |idx| > 1
    ensures var w := InverseRiskWeights(DiagonalRisks(cov, idx));
            && |w| == |idx| && OnSimplex(w) && Precision(cov, idx) > 0.0
            && forall a | 0 <= a < |idx| :: w[a] * Variance(cov, idx, a) == Reciprocal(Precision(cov, idx))
  {
    hide OnSimplex, InverseScores, InverseRiskWeights, Sum, Reciprocal;
    var risks := DiagonalRisks(cov, idx);
    assert forall a | 0 <= a < |idx| :: risks[a] == Variance(cov, idx, a);
    ScoresArePrecisions(cov, idx);
    InverseWeights(risks);
  }

  /** A variance of 1e-12 or less counts as 1e-12: weight times the larger of the two is the same for
      every asset of a cluster. */
  lemma SmallVariancesAreFloored(cov: Covariance, idx: seq<nat>, risks: seq<real>)
    requires SquareCov(cov) && InRange(idx, |cov|) && |risks| == |idx| > 1
    requires forall a | 0 <= a < |idx| ::
               risks[a] == (if Variance(cov, idx, a) <= 0.000000000001 then 0.000000000001 else Variance(cov, idx, a))
    requires forall a | 0 <= a < |idx| :: risks[a] <= 1000000000000.0
    ensures var w := InverseRiskWeights(DiagonalRisks(cov, idx));
            && |w| == |idx| && OnSimplex(w)
            && forall a, b | 0 <= a < |idx| && 0 <= b < |idx| :: w[a] * risks[a] == w[b] * risks[b]
  {
    hide OnSimplex, InverseScores, InverseRiskWeights, Sum, Reciprocal;
    assert DiagonalRisks(cov, idx) == risks;
    InverseWeights(risks);
  }

  lemma Rescaled(v: real, x: real, total: real, w: real)
    requires v * x == 1.0 && total > 0.0 && w == v / total
    ensures w * x == Reciprocal(total)
  {
    ReciprocalIs(total);
    assert w * total == v;
    assert (w * x) * total == 1.0 by {
      assert (w * x) * total == (w * total) * x;
    }
    SameFactor(w * x, Reciprocal(total), total);
  }

  lemma {:induction false} RowOfOne(cov: Covariance, idx: seq<nat>, w: seq<real>, i: nat, j: nat, term: real)
    requires SquareCov(cov) && InRange(idx, |cov|) && Uncorrelated(cov, idx)
    requires |w| == |idx| && i < |idx| && j <= |idx| && term == w[i] * Variance(cov, idx, i) * w[i]
    ensures RowTotal(cov, idx, w, i, j) == if j <= i then 0.0 else term
    decreases j
  {
    if j > 0 {
      RowOfOne(cov, idx, w, i, j - 1, term);
      RowStep(cov, idx, w, i, j - 1);
      if j - 1 != i {
        assert Between(cov, idx, i, j - 1) == 0.0;
        NoTerm(w[i], w[j - 1]);
      }
    }
  }

  lemma NoTerm(x: real, y: real)
    ensures x * 0.0 * y == 0.0
  {
  }

  lemma {:induction false} QuadraticOfDiagonal(cov: Covariance, idx: seq<nat>, w: seq<real>, unit: real, i: nat)
    requires SquareCov(cov) && InRange(idx, |cov|) && Uncorrelated(cov, idx)
    requires |w| == |idx| && i <= |idx|
    requires forall a | 0 <= a < |idx| :: w[a] * Variance(cov, idx, a) == unit
    ensures Quadratic(cov, idx, w, i) == Share(unit, Sum(w[..i]))
  {
    hide Uncorrelated, RowTotal, Variance;
    if i == 0 {
      assert w[..0] == [];
    } else {
      QuadraticOfDiagonal(cov, idx, w, unit, i - 1);
      var term := w[i - 1] * Variance(cov, idx, i - 1) * w[i - 1];
      RowOfOne(cov, idx, w, i - 1, |idx|, term);
      SumTake(w, i - 1);
      SharesOf(unit, Sum(w[..i - 1]), w[i - 1], term);
    }
  }

  lemma SharesOf(unit: real, sum: real, x: real, term: real)
    requires term == unit * x
    ensures Share(unit, sum + x) == Share(unit, sum) + term
  {
  }

  /** For uncorrelated assets the cluster variance is one over the sum of the reciprocals of the
      variances. */
  lemma VarianceOfUncorrelated(cov: Covariance, idx: seq<nat>)
    requires SquareCov(cov) && InRange(idx, |cov|) && idx != []
    requires Ordinary(cov, idx) && Uncorrelated(cov, idx)
    ensures VarianceOf(cov, idx) * Precision(cov, idx) == 1.0
  {
    hide Uncorrelated, Precision, Precisions, Quadratic;
    PrecisionsAre(cov, idx);
    if |idx| == 1 {
      SinglePrecision(cov, idx);
    } else {
      InsideWeights(cov, idx);
      var w, unit := InverseRiskWeights(DiagonalRisks(cov, idx)), Reciprocal(Precision(cov, idx));
      QuadraticOfDiagonal(cov, idx, w, unit, |idx|);
      assert w[..|idx|] == w;
      ReciprocalIs(Precision(cov, idx));
      assert Share(unit, 1.0) == unit;
    }
  }

  lemma SinglePrecision(cov: Covariance, idx: seq<nat>)
    requires SquareCov(cov) && InRange(idx, |cov|) && Ordinary(cov, idx) && |idx| == 1
    ensures Precision(cov, idx) == Reciprocal(Variance(cov, idx, 0))
    ensures VarianceOf(cov, idx) == Variance(cov, idx, 0) && Variance(cov, idx, 0) * Precision(cov, idx) == 1.0
  {
    PrecisionsAre(cov, idx);
    OneMass(Precisions(cov, idx));
  }

  // ---- two assets, correlated or not -----------------------------------------------------

  lemma TwoWeights(a: real, b: real, w0: real, w1: real)
    requires a > 0.0 && b > 0.0 && w0 * a == w1 * b && w0 + w1 == 1.0
    ensures w0 * (a + b) == b && w1 * (a + b) == a
  {
    assert w0 * (a + b) == w0 * a + w0 * b == (w0 + w1) * b;
    assert w1 * (a + b) == w1 * a + w1 * b == (w0 + w1) * a;
  }

  lemma ScaledTerm(x: real, k: real, y: real, s: real, xs: real, ys: real)
    requires x * s == xs && y * s == ys
    ensures (x * k * y) * s * s == k * xs * ys
  {
    assert (x * k * y) * s * s == k * (x * s) * (y * s);
  }

  /** The variance of a pair: the product of the variances times the sum of all four entries, over the
      square of the sum of the variances; one pico-unit if that is not positive. */
  lemma VarianceOfPair(cov: Covariance, idx: seq<nat>)
    requires SquareCov(cov) && InRange(idx, |cov|) && |idx| == 2 && Ordinary(cov, idx)
    ensures var a, b := Variance(cov, idx, 0), Variance(cov, idx, 1);
            var whole := a * b * (a + b + Between(cov, idx, 0, 1) + Between(cov, idx, 1, 0));
            if whole > 0.0 then VarianceOf(cov, idx) * (a + b) * (a + b) == whole
            else VarianceOf(cov, idx) == 0.000000000001
  {
    hide Precision, DiagonalRisks, InverseRiskWeights;
    var a, b := Variance(cov, idx, 0), Variance(cov, idx, 1);
    var c, d := Between(cov, idx, 0, 1), Between(cov, idx, 1, 0);
    var w := InverseRiskWeights(DiagonalRisks(cov, idx));
    InsideWeights(cov, idx);
    assert w == [w[0], w[1]] && Sum(w) == w[0] + w[1] by {
      assert w[1..] == [w[1]];
      OneMass(w[1..]);
    }
    var q := Quadratic(cov, idx, w, 2);
    PairQuadratic(cov, idx, w);
    PairVariance(a, b, c, d, w[0], w[1], q);
  }

  lemma PairQuadratic(cov: Covariance, idx: seq<nat>, w: seq<real>)
    requires SquareCov(cov) && InRange(idx, |cov|) && |idx| == |w| == 2
    ensures Quadratic(cov, idx, w, 2) ==
            w[0] * Variance(cov, idx, 0) * w[0] + w[0] * Between(cov, idx, 0, 1) * w[1] +
            (w[1] * Between(cov, idx, 1, 0) * w[0] + w[1] * Variance(cov, idx, 1) * w[1])
  {
    hide Quadratic;
    RowStep(cov, idx, w, 0, 0);
    RowStep(cov, idx, w, 0, 1);
    RowStep(cov, idx, w, 1, 0);
    RowStep(cov, idx, w, 1, 1);
    QuadraticStep(cov, idx, w, 0);
    QuadraticStep(cov, idx, w, 1);
  }

  lemma QuadraticStep(cov: Covariance, idx: seq<nat>, w: seq<real>, i: nat)
    requires SquareCov(cov) && InRange(idx, |cov|) && |w| == |idx| && i < |idx|
    ensures Quadratic(cov, idx, w, i + 1) == Quadratic(cov, idx, w, i) + RowTotal(cov, idx, w, i, |idx|)
    ensures Quadratic(cov, idx, w, 0) == 0.0 && RowTotal(cov, idx, w, i, 0) == 0.0
  {
  }

  lemma PairVariance(a: real, b: real, c: real, d: real, w0: real, w1: real, q: real)
    requires a > 0.0 && b > 0.0 && w0 * a == w1 * b && w0 + w1 == 1.0
    requires q == w0 * a * w0 + w0 * c * w1 + (w1 * d * w0 + w1 * b * w1)
    ensures q * (a + b) * (a + b) == a * b * (a + b + c + d)
    ensures q > 0.0 <==> a * b * (a + b + c + d) > 0.0
  {
    var s := a + b;
    TwoWeights(a, b, w0, w1);
    ScaledTerm(w0, a, w0, s, b, b);
    ScaledTerm(w0, c, w1, s, b, a);
    ScaledTerm(w1, d, w0, s, a, b);
    ScaledTerm(w1, b, w1, s, a, a);
    var whole := a * b * (s + c + d);
    FourTerms(w0 * a * w0, w0 * c * w1, w1 * d * w0, w1 * b * w1, s, q);
    assert whole == a * b * b + c * b * a + d * a * b + b * a * a;
    SameSign(q, s, whole);
  }

  lemma FourTerms(t1: real, t2: real, t3: real, t4: real, s: real, q: real)
    requires q == t1 + t2 + (t3 + t4)
    ensures q * s * s == t1 * s * s + t2 * s * s + t3 * s * s + t4 * s * s
  {
    assert q * s == t1 * s + t2 * s + t3 * s + t4 * s;
  }

  lemma SameSign(q: real, s: real, whole: real)
    requires s > 0.0 && q * s * s == whole
    ensures q > 0.0 <==> whole > 0.0
  {
    var once := q * s;
    assert q > 0.0 <==> once > 0.0;
    assert once > 0.0 <==> whole > 0.0;
  }

  // ---- the allocation ------------------------------------------------------------------------

  lemma SubsetOf(cov: Covariance, idx: seq<nat>, mid: nat)
    requires SquareCov(cov) && InRange(idx, |cov|) && 0 < mid < |idx|
    requires Ordinary(cov, idx) && Uncorrelated(cov, idx)
    ensures InRange(idx[..mid], |cov|) && InRange(idx[mid..], |cov|)
    ensures Ordinary(cov, idx[..mid]) && Uncorrelated(cov, idx[..mid])
    ensures Ordinary(cov, idx[mid..]) && Uncorrelated(cov, idx[mid..])
    ensures forall a | 0 <= a < mid :: Variance(cov, idx[..mid], a) == Variance(cov, idx, a)
    ensures forall a | 0 <= a < |idx| - mid :: Variance(cov, idx[mid..], a) == Variance(cov, idx, mid + a)
  {
    InRangeSlices(idx, mid, |cov|);
    var l, r := idx[..mid], idx[mid..];
    forall a | 0 <= a < mid ensures Variance(cov, l, a) == Variance(cov, idx, a) {
    }
    forall a | 0 <= a < |r| ensures Variance(cov, r, a) == Variance(cov, idx, mid + a) {
    }
    forall a, b | 0 <= a < mid && 0 <= b < mid && a != b ensures Between(cov, l, a, b) == 0.0 {
      assert Between(cov, l, a, b) == Between(cov, idx, a, b);
    }
    forall a, b | 0 <= a < |r| && 0 <= b < |r| && a != b ensures Between(cov, r, a, b) == 0.0 {
      assert Between(cov, r, a, b) == Between(cov, idx, mid + a, mid + b);
    }
  }

  lemma PrecisionSplits(cov: Covariance, idx: seq<nat>, mid: nat)
    requires SquareCov(cov) && InRange(idx, |cov|) && 0 < mid < |idx|
    requires Ordinary(cov, idx) && Uncorrelated(cov, idx)
    requires InRange(idx[..mid], |cov|) && InRange(idx[mid..], |cov|)
    requires Ordinary(cov, idx[..mid]) && Ordinary(cov, idx[mid..])
    ensures Precision(cov, idx) == Precision(cov, idx[..mid]) + Precision(cov, idx[mid..])
  {
    hide Ordinary, Uncorrelated;
    SubsetOf(cov, idx, mid);
    assert Precisions(cov, idx) == Precisions(cov, idx[..mid]) + Precisions(cov, idx[mid..]);
    SumConcat(Precisions(cov, idx[..mid]), Precisions(cov, idx[mid..]));
  }

  // The shares of the two halves, from precisions.
  lemma SharesByPrecision(vl: real, vr: real, sl: real, sr: real, unit: real, mass: real)
    requires vl > 0.0 && vr > 0.0 && vl * sl == 1.0 && vr * sr == 1.0 && mass == Share(unit, sl + sr)
    requires vl + vr > FLAT
    ensures Share(mass, Alpha(vl, vr)) == Share(unit, sl) && Share(mass, 1.0 - Alpha(vl, vr)) == Share(unit, sr)
  {
    var a, b := Share(unit, sl), Share(unit, sr);
    assert a * vl == unit * (sl * vl) == unit;
    assert b * vr == unit * (sr * vr) == unit;
    assert SplitBalanced(vl, vr, a, b);
    assert a + b == mass;
    BalanceFixesShares(vl, vr, a, b, mass);
  }

  // A precision below 10^18 keeps the variance above the threshold of the split.
  lemma NotFlat(v: real, s: real)
    requires v * s == 1.0 && 0.0 < s < 1000000000000000000.0 && v > 0.0
    ensures v > FLAT
  {
    var gap := (v - FLAT) * s;
    assert gap == 1.0 - FLAT * s;
    PositiveFactor(v - FLAT, s, gap);
  }

  /** Uncorrelated assets, in any order: weight times variance is the same for every asset. */
  lemma {:induction false} EqualRiskShares(cov: Covariance, idx: seq<nat>, mass: real, unit: real)
    requires SquareCov(cov) && InRange(idx, |cov|) && idx != []
    requires Ordinary(cov, idx) && Uncorrelated(cov, idx)
    requires Precision(cov, idx) < 1000000000000000000.0 && mass == Share(unit, Precision(cov, idx))
    ensures forall a | 0 <= a < |idx| :: Share(Allocate(cov, idx, mass)[a], Variance(cov, idx, a)) == unit
    decreases |idx|
  {
    hide Ordinary, Uncorrelated, Precision, Variance, VarianceOf, Alpha, Share, Allocate;
    if |idx| == 1 {
      OneAsset(cov, idx, mass, unit);
    } else {
      var mid := |idx| / 2;
      var l, r := idx[..mid], idx[mid..];
      SubsetOf(cov, idx, mid);
      SplitByPrecision(cov, idx, mid, mass, unit);
      var ml, mr := Share(unit, Precision(cov, l)), Share(unit, Precision(cov, r));
      EqualRiskShares(cov, l, ml, unit);
      EqualRiskShares(cov, r, mr, unit);
      var w, wl, wr := Allocate(cov, idx, mass), Allocate(cov, l, ml), Allocate(cov, r, mr);
      forall a | 0 <= a < |idx| ensures Share(w[a], Variance(cov, idx, a)) == unit {
        if a < mid {
          assert w[a] == wl[a] && Variance(cov, l, a) == Variance(cov, idx, a);
        } else {
          assert w[a] == wr[a - mid] && Variance(cov, r, a - mid) == Variance(cov, idx, mid + (a - mid));
        }
      }
    }
  }

  lemma OneAsset(cov: Covariance, idx: seq<nat>, mass: real, unit: real)
    requires SquareCov(cov) && InRange(idx, |cov|) && |idx| == 1 && Ordinary(cov, idx)
    requires mass == Share(unit, Precision(cov, idx))
    ensures Allocate(cov, idx, mass) == [mass] && Share(mass, Variance(cov, idx, 0)) == unit
  {
    hide Precision, Variance, Ordinary;
    SinglePrecision(cov, idx);
    var p, v := Precision(cov, idx), Variance(cov, idx, 0);
    assert (unit * p) * v == unit * (v * p);
  }

  lemma SplitByPrecision(cov: Covariance, idx: seq<nat>, mid: nat, mass: real, unit: real)
    requires SquareCov(cov) && InRange(idx, |cov|) && |idx| > 1 && mid == |idx| / 2
    requires Ordinary(cov, idx) && Uncorrelated(cov, idx)
    requires Precision(cov, idx) < 1000000000000000000.0 && mass == Share(unit, Precision(cov, idx))
    requires InRange(idx[..mid], |cov|) && Ordinary(cov, idx[..mid]) && Uncorrelated(cov, idx[..mid])
    requires InRange(idx[mid..], |cov|) && Ordinary(cov, idx[mid..]) && Uncorrelated(cov, idx[mid..])
    ensures Precision(cov, idx[..mid]) < 1000000000000000000.0 && Precision(cov, idx[mid..]) < 1000000000000000000.0
    ensures Allocate(cov, idx, mass) == Allocate(cov, idx[..mid], Share(unit, Precision(cov, idx[..mid]))) +
                                        Allocate(cov, idx[mid..], Share(unit, Precision(cov, idx[mid..])))
  {
    hide Ordinary, Uncorrelated, Precision, VarianceOf, Alpha, Share, Allocate;
    var l, r := idx[..mid], idx[mid..];
    AllocateUnfold(cov, idx, mass, mid);
    PrecisionSplits(cov, idx, mid);
    var sl, sr := Precision(cov, l), Precision(cov, r);
    PrecisionsAre(cov, l);
    PrecisionsAre(cov, r);
    VarianceOfUncorrelated(cov, l);
    VarianceOfUncorrelated(cov, r);
    NotFlat(VarianceOf(cov, l), sl);
    SharesByPrecision(VarianceOf(cov, l), VarianceOf(cov, r), sl, sr, unit, mass);
  }

  /** Hierarchical risk parity on uncorrelated assets is the inverse-variance portfolio: weight times
      variance times precision is one for every asset. */
  lemma UncorrelatedIsInverseVariance(cov: Covariance, order: seq<nat>, w: seq<real>)
    requires IsAllocation(w, cov, order) && Ordinary(cov, order) && Uncorrelated(cov, order)
    requires Precision(cov, order) < 1000000000000000000.0
    ensures forall a | 0 <= a < |order| ::
              order[a] < |w| && w[order[a]] * Variance(cov, order, a) * Precision(cov, order) == 1.0
  {
    hide Ordinary, Uncorrelated, Precision, Variance, Allocate;
    PrecisionsAre(cov, order);
    var p := Precision(cov, order);
    var unit := Reciprocal(p);
    ReciprocalIs(p);
    assert Share(unit, p) == 1.0;
    EqualRiskShares(cov, order, 1.0, unit);
    forall a | 0 <= a < |order|
      ensures order[a] < |w| && w[order[a]] * Variance(cov, order, a) * p == 1.0
    {
      assert Share(w[order[a]], Variance(cov, order, a)) == unit;
    }
  }
}
