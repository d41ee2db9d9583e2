/** What the bisection allocates: at every split the two halves carry the same mass times variance,
    which fixes all weights; for uncorrelated assets they are the inverse-variance portfolio. */
module RiskShares {
  import opened Types
  import opened Simplex
  import opened Linkage
  import opened Bisection

  // ---- balance at every split --------------------------------------------------------

  predicate SplitBalanced(left: real, right: real, leftMass: real, rightMass: real) {
    if left + right > 0.000000000000000001 then leftMass * left == rightMass * right else leftMass == rightMass
  }

  /** At every split of the recursion each half's mass times its cluster variance is the same; where
      the two variances are too small to divide by, the masses are. */
  ghost predicate Balanced(cov: Covariance, idx: seq<nat>, w: seq<real>)
    requires SquareCov(cov) && InRange(idx, |cov|) && idx != [] && |w| == |idx|
    decreases |idx|
  {
    |idx| == 1 ||
    var mid := |idx| / 2;
    InRangeSlices(idx, mid, |cov|);
    && SplitBalanced(VarianceOf(cov, idx[..mid]), VarianceOf(cov, idx[mid..]), Sum(w[..mid]), Sum(w[mid..]))
    && Balanced(cov, idx[..mid], w[..mid]) && Balanced(cov, idx[mid..], w[mid..])
  }

  lemma AlphaShares(left: real, right: real, alpha: real)
    requires left > 0.0 && right > 0.0 && left + right > FLAT && alpha == Alpha(left, right)
    ensures alpha * (left + right) == right
  {
    var q := left / (left + right);
    assert q * (left + right) == left;
    assert alpha == 1.0 - q;
  }

  lemma SharesBalance(left: real, right: real, alpha: real, mass: real, leftMass: real, rightMass: real)
    requires left > 0.0 && right > 0.0 && alpha * (left + right) == right
    requires leftMass == mass * alpha && rightMass == mass * (1.0 - alpha)
    ensures leftMass * left == rightMass * right
  {
    var x := mass * left;
    assert leftMass * left == x * alpha;
    assert (1.0 - alpha) * right == alpha * left by {
      assert alpha * (left + right) == alpha * left + alpha * right;
      assert (1.0 - alpha) * right == right - alpha * right;
    }
    assert rightMass * right == mass * ((1.0 - alpha) * right);
    assert mass * (alpha * left) == x * alpha;
  }

  // A split shares the mass in balance.
  lemma SplitIsBalanced(left: real, right: real, mass: real)
    requires left > 0.0 && right > 0.0
    ensures SplitBalanced(left, right, Share(mass, Alpha(left, right)), Share(mass, 1.0 - Alpha(left, right)))
  {
    var alpha := Alpha(left, right);
    if left + right > FLAT {
      AlphaShares(left, right, alpha);
      SharesBalance(left, right, alpha, mass, Share(mass, alpha), Share(mass, 1.0 - alpha));
    }
  }

  /** The allocation is balanced at every split, however deep. */
  lemma {:induction false} AllocationIsBalanced(cov: Covariance, idx: seq<nat>, mass: real)
    requires SquareCov(cov) && InRange(idx, |cov|) && idx != [] && mass > 0.0
    ensures Balanced(cov, idx, Allocate(cov, idx, mass)) && Sum(Allocate(cov, idx, mass)) == mass
    decreases |idx|
  {
    hide VarianceOf, Alpha, Share, SplitBalanced, Allocate;
    AllocateConserves(cov, idx, mass);
    if |idx| > 1 {
      var mid := |idx| / 2;
      AllocateUnfold(cov, idx, mass, mid);
      var vl, vr := VarianceOf(cov, idx[..mid]), VarianceOf(cov, idx[mid..]);
      var left, right := Share(mass, Alpha(vl, vr)), Share(mass, 1.0 - Alpha(vl, vr));
      SharesPositive(mass, Alpha(vl, vr), left, right);
      AllocationIsBalanced(cov, idx[..mid], left);
      AllocationIsBalanced(cov, idx[mid..], right);
      SplitIsBalanced(vl, vr, mass);
      Halves(Allocate(cov, idx[..mid], left), Allocate(cov, idx[mid..], right), Allocate(cov, idx, mass), mid);
    }
  }

  lemma Halves(a: seq<real>, b: seq<real>, w: seq<real>, mid: nat)
    requires w == a + b && |a| == mid
    ensures w[..mid] == a && w[mid..] == b
  {
  }

  lemma BalanceFixesShares(left: real, right: real, leftMass: real, rightMass: real, mass: real)
    requires left > 0.0 && right > 0.0 && SplitBalanced(left, right, leftMass, rightMass)
    requires mass == leftMass + rightMass
    ensures leftMass == Share(mass, Alpha(left, right)) && rightMass == Share(mass, 1.0 - Alpha(left, right))
  {
    var alpha := Alpha(left, right);
    if left + right > FLAT {
      AlphaShares(left, right, alpha);
      BalancedMass(left, right, alpha, mass, leftMass, rightMass);
    }
  }

  lemma BalancedMass(left: real, right: real, alpha: real, mass: real, leftMass: real, rightMass: real)
    requires left > 0.0 && right > 0.0 && alpha * (left + right) == right
    requires leftMass * left == rightMass * right && mass == leftMass + rightMass
    ensures leftMass == mass * alpha && rightMass == mass * (1.0 - alpha)
  {
    var total := left + right;
    var share := mass * alpha;
    assert leftMass * total == mass * right;
    assert share * total == mass * (alpha * total);
    SameFactor(leftMass, share, total);
  }

  lemma SameFactor(x: real, y: real, c: real)
    requires c != 0.0 && x * c == y * c
    ensures x == y
  {
    assert (x - y) * c == 0.0;
  }

  /** Balance at every split and a total leave only one choice: the allocation. */
  lemma {:induction false} BalancedIsAllocation(cov: Covariance, idx: seq<nat>, w: seq<real>)
    requires SquareCov(cov) && InRange(idx, |cov|) && idx != [] && |w| == |idx|
    requires Balanced(cov, idx, w)
    ensures w == Allocate(cov, idx, Sum(w))
    decreases |idx|
  {
    hide VarianceOf, Alpha, Share, SplitBalanced, Allocate, Sum;
    if |idx| == 1 {
      SingleAllocation(cov, idx, w);
    } else {
      var mid := |idx| / 2;
      InRangeSlices(idx, mid, |cov|);
      AllocateUnfold(cov, idx, Sum(w), mid);
      BalancedIsAllocation(cov, idx[..mid], w[..mid]);
      BalancedIsAllocation(cov, idx[mid..], w[mid..]);
      assert w == w[..mid] + w[mid..];
      SumConcat(w[..mid], w[mid..]);
      BalanceFixesShares(VarianceOf(cov, idx[..mid]), VarianceOf(cov, idx[mid..]),
                         Sum(w[..mid]), Sum(w[mid..]), Sum(w));
    }
  }

  lemma SingleAllocation(cov: Covariance, idx: seq<nat>, w: seq<real>)
    requires SquareCov(cov) && InRange(idx, |cov|) && |idx| == |w| == 1
    ensures w == Allocate(cov, idx, Sum(w))
  {
    OneMass(w);
  }

  /** The half that varies less gets more. */
  lemma LessVariableGetsMore(left: real, right: real, leftMass: real, rightMass: real)
    requires SplitBalanced(left, right, leftMass, rightMass) && left + right > 0.000000000000000001
    requires 0.0 < left < right && leftMass > 0.0 && rightMass > 0.0
    ensures leftMass > rightMass
  {
    var gain := leftMass * (right - left);
    ProductPositive(leftMass, right - left, gain);
    assert (leftMass - rightMass) * right == gain;
    PositiveFactor(leftMass - rightMass, right, gain);
  }

  lemma PositiveFactor(x: real, c: real, p: real)
    requires c > 0.0 && p > 0.0 && p == x * c
    ensures x > 0.0
  {
  }

  /** Two assets: weight times variance is the same for both. */
  lemma TwoAssets(cov: Covariance, idx: seq<nat>)
    requires SquareCov(cov) && InRange(idx, |cov|) && |idx| == 2
    requires idx[0] < |cov| && idx[1] < |cov|
    requires cov[idx[0]][idx[0]] > 0.0 && cov[idx[1]][idx[1]] > 0.0
    requires cov[idx[0]][idx[0]] + cov[idx[1]][idx[1]] > 0.000000000000000001
    ensures var w := Allocate(cov, idx, 1.0);
            w[0] * cov[idx[0]][idx[0]] == w[1] * cov[idx[1]][idx[1]] && w[0] + w[1] == 1.0
  {
    hide Allocate, Alpha;
    var w := Allocate(cov, idx, 1.0);
    AllocationIsBalanced(cov, idx, 1.0);
    InRangeSlices(idx, 1, |cov|);
    OneMass(w[..1]);
    OneMass(w[1..]);
    assert w == w[..1] + w[1..];
    SumConcat(w[..1], w[1..]);
  }

  lemma OneMass(w: seq<real>)
    requires |w| == 1
    ensures Sum(w) == w[0]
  {
    assert Sum(w[1..]) == 0.0;
  }
}
