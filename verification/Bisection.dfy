/** Recursive bisection: mass flows down the ordered assets, halved again and again by cluster variance. */
module Bisection {
  import opened Types
  import opened Simplex
  import opened Dendrogram
  import opened Bottleneck
  import opened Linkage

  type Covariance = seq<seq<real>>

  ghost predicate SquareCov(cov: Covariance) {
    forall i | 0 <= i < |cov| :: |cov[i]| == |cov|
  }

  // ---- cluster variance --------------------------------------------------------------

  function InverseScores(risks: seq<real>): seq<real> {
    seq(|risks|, i requires 0 <= i < |risks| => if risks[i] > 0.0 then 1.0 / risks[i] else 1.0)
  }

  function DiagonalRisks(cov: Covariance, idx: seq<nat>): seq<real>
    requires SquareCov(cov) && InRange(idx, |cov|)
  {
    seq(|idx|, i requires 0 <= i < |idx| =>
      assert idx[i] in idx;
      if cov[idx[i]][idx[i]] > TINY then cov[idx[i]][idx[i]] else TINY)
  }

  function RowTotal(cov: Covariance, idx: seq<nat>, w: seq<real>, i: nat, j: nat): real
    requires SquareCov(cov) && InRange(idx, |cov|) && |w| == |idx| && i < |idx| && j <= |idx|
  {
    if j == 0 then 0.0
    else
      assert idx[i] in idx && idx[j - 1] in idx;
      RowTotal(cov, idx, w, i, j - 1) + w[i] * cov[idx[i]][idx[j - 1]] * w[j - 1]
  }

  // The portfolio variance of weights `w` over the first `i` rows.
  function Quadratic(cov: Covariance, idx: seq<nat>, w: seq<real>, i: nat): real
    requires SquareCov(cov) && InRange(idx, |cov|) && |w| == |idx| && i <= |idx|
  {
    if i == 0 then 0.0 else Quadratic(cov, idx, w, i - 1) + RowTotal(cov, idx, w, i - 1, |idx|)
  }

  function Positive(v: real): (r: real)
    ensures r > 0.0 && (v > 0.0 ==> r == v)
  {
    if v > 0.0 then v else TINY
  }

  function InverseRiskWeights(risks: seq<real>): (w: seq<real>)
    ensures |w| == |risks|
  {
    if risks != [] then
      NormalizedProjects(InverseScores(risks));
      Normalized(InverseScores(risks))
    else []
  }

  // Variance of the inverse-variance portfolio of a cluster, kept positive.
  function VarianceOf(cov: Covariance, idx: seq<nat>): (v: real)
    requires SquareCov(cov) && InRange(idx, |cov|) && idx != []
    ensures v > 0.0
  {
    if |idx| == 1 then
      assert idx[0] in idx;
      Positive(cov[idx[0]][idx[0]])
    else
      Positive(Quadratic(cov, idx, InverseRiskWeights(DiagonalRisks(cov, idx)), |idx|))
  }

  lemma RowStep(cov: Covariance, idx: seq<nat>, w: seq<real>, i: nat, j: nat)
    requires SquareCov(cov) && InRange(idx, |cov|) && |w| == |idx| && i < |idx| && j < |idx|
    ensures idx[i] < |cov| && idx[j] < |cov|
    ensures RowTotal(cov, idx, w, i, j + 1) == RowTotal(cov, idx, w, i, j) + w[i] * cov[idx[i]][idx[j]] * w[j]
  {
    assert idx[i] in idx && idx[j] in idx;
    assert j + 1 - 1 == j;
  }

  method ClusterVariance(cov: Covariance, idx: seq<nat>) returns (v: real)
    requires SquareCov(cov) && InRange(idx, |cov|) && idx != []
    ensures v == VarianceOf(cov, idx)
  {
    if |idx| == 1 {
      assert idx[0] in idx;
      return Positive(cov[idx[0]][idx[0]]);
    }
    var scores := InverseScores(DiagonalRisks(cov, idx));
    NormalizedProjects(scores);
    var weights := NormalizeLongOnly(scores);
    var variance := 0.0;
    for i := 0 to |idx|
      invariant variance == Quadratic(cov, idx, weights, i)
    {
      for j := 0 to |idx|
        invariant variance == Quadratic(cov, idx, weights, i) + RowTotal(cov, idx, weights, i, j)
      {
        RowStep(cov, idx, weights, i, j);
        variance := variance + weights[i] * cov[idx[i]][idx[j]] * weights[j];
      }
    }
    return Positive(variance);
  }

  // ---- the split -----------------------------------------------------------------------

  const FLAT: real := 0.000000000000000001

  // The share of the left half.
  function Alpha(left: real, right: real): (a: real)
    requires left > 0.0 && right > 0.0
    ensures 0.0 < a < 1.0
  {
    if left + right > FLAT then
      ShareBounds(left, right);
      1.0 - left / (left + right)
    else 0.5
  }

  lemma ShareBounds(left: real, right: real)
    requires left > 0.0 && right > 0.0
    ensures 0.0 < left / (left + right) < 1.0
  {
    var q := left / (left + right);
    assert q * (left + right) == left;
    assert (1.0 - q) * (left + right) == right;
  }

  lemma InRangeSlices(s: seq<nat>, k: nat, n: nat)
    requires InRange(s, n) && k <= |s|
    ensures InRange(s[..k], n) && InRange(s[k..], n)
  {
    forall x | x in s[..k] ensures x < n { assert x in s; }
    forall x | x in s[k..] ensures x < n { assert x in s; }
  }

  function Share(mass: real, alpha: real): real {
    mass * alpha
  }

  // The reference: a range of assets shares `mass`, the two halves in proportion `alpha : 1 - alpha`.
  function Allocate(cov: Covariance, idx: seq<nat>, mass: real): (w: seq<real>)
    requires SquareCov(cov) && InRange(idx, |cov|) && idx != []
    ensures |w| == |idx|
    decreases |idx|
  {
    if |idx| == 1 then [mass]
    else
      var mid := |idx| / 2;
      InRangeSlices(idx, mid, |cov|);
      var alpha := Alpha(VarianceOf(cov, idx[..mid]), VarianceOf(cov, idx[mid..]));
      Allocate(cov, idx[..mid], Share(mass, alpha)) + Allocate(cov, idx[mid..], Share(mass, 1.0 - alpha))
  }

  lemma {:induction false} SumConcat(a: seq<real>, b: seq<real>)
    ensures Sum(a + b) == Sum(a) + Sum(b)
  {
    if a == [] {
      assert a + b == b;
    } else {
      SumConcat(a[1..], b);
      assert (a + b)[1..] == a[1..] + b;
    }
  }

  lemma SharesPositive(mass: real, alpha: real, left: real, right: real)
    requires mass > 0.0 && 0.0 < alpha < 1.0 && left == Share(mass, alpha) && right == Share(mass, 1.0 - alpha)
    ensures left > 0.0 && right > 0.0 && left + right == mass
  {
    ProductPositive(mass, alpha, left);
    ProductPositive(mass, 1.0 - alpha, right);
  }

  /** Bisection neither loses nor creates mass, and every asset gets some. */
  lemma {:induction false} AllocateConserves(cov: Covariance, idx: seq<nat>, mass: real)
    requires SquareCov(cov) && InRange(idx, |cov|) && idx != [] && mass > 0.0
    ensures Sum(Allocate(cov, idx, mass)) == mass
    ensures forall k | 0 <= k < |idx| :: Allocate(cov, idx, mass)[k] > 0.0
    decreases |idx|
  {
    hide VarianceOf, Alpha, Share;
    if |idx| > 1 {
      var mid := |idx| / 2;
      InRangeSlices(idx, mid, |cov|);
      var alpha := Alpha(VarianceOf(cov, idx[..mid]), VarianceOf(cov, idx[mid..]));
      var left, right := Share(mass, alpha), Share(mass, 1.0 - alpha);
      SharesPositive(mass, alpha, left, right);
      AllocateConserves(cov, idx[..mid], left);
      AllocateConserves(cov, idx[mid..], right);
      SumConcat(Allocate(cov, idx[..mid], left), Allocate(cov, idx[mid..], right));
    }
  }

  // ---- the work stack ------------------------------------------------------------------

  datatype Range = Range(lo: nat, hi: nat)

  ghost predicate RangesFit(stack: seq<Range>, n: nat) {
    && (forall a | 0 <= a < |stack| :: stack[a].lo < stack[a].hi <= n)
    && (forall a, b | 0 <= a < b < |stack| :: stack[a].hi <= stack[b].lo || stack[b].hi <= stack[a].lo)
  }

  ghost predicate Covers(stack: seq<Range>, p: nat) {
    exists a | 0 <= a < |stack| :: stack[a].lo <= p < stack[a].hi
  }

  // The entries of a range all hold the mass it has still to share out.
  ghost predicate Holds(cov: Covariance, idx: seq<nat>, target: seq<real>, w: seq<real>, r: Range)
    requires SquareCov(cov) && InRange(idx, |cov|) && |w| == |target| == |idx| && r.lo < r.hi <= |idx|
  {
    && (forall k | r.lo <= k < r.hi :: w[k] == w[r.lo])
    && (SliceInRange(idx, r, |cov|); target[r.lo..r.hi] == Allocate(cov, idx[r.lo..r.hi], w[r.lo]))
  }

  lemma SliceInRange(idx: seq<nat>, r: Range, n: nat)
    requires InRange(idx, n) && r.lo <= r.hi <= |idx|
    ensures InRange(idx[r.lo..r.hi], n)
  {
    forall x | x in idx[r.lo..r.hi] ensures x < n {
      assert x in idx;
    }
  }

  ghost predicate Progress(cov: Covariance, idx: seq<nat>, target: seq<real>, w: seq<real>, stack: seq<Range>) {
    && SquareCov(cov) && InRange(idx, |cov|) && |w| == |target| == |idx|
    && RangesFit(stack, |idx|)
    && (forall a | 0 <= a < |stack| :: Holds(cov, idx, target, w, stack[a]))
    && (forall p | 0 <= p < |idx| && !Covers(stack, p) :: w[p] == target[p])
  }

  function Multiplied(w: seq<real>, lo: nat, hi: nat, factor: real): seq<real> {
    seq(|w|, k requires 0 <= k < |w| => if lo <= k < hi then Share(w[k], factor) else w[k])
  }

  // The share of the left half of `idx[lo..hi]`, cut at `mid`.
  function SplitShare(cov: Covariance, idx: seq<nat>, lo: nat, mid: nat, hi: nat): (a: real)
    requires SquareCov(cov) && InRange(idx, |cov|) && lo < mid < hi <= |idx|
    ensures 0.0 < a < 1.0
  {
    SliceInRange(idx, Range(lo, mid), |cov|);
    SliceInRange(idx, Range(mid, hi), |cov|);
    Alpha(VarianceOf(cov, idx[lo..mid]), VarianceOf(cov, idx[mid..hi]))
  }

  lemma AllocateUnfold(cov: Covariance, s: seq<nat>, mass: real, half: nat)
    requires SquareCov(cov) && InRange(s, |cov|) && |s| >= 2 && half == |s| / 2
    ensures InRange(s[..half], |cov|) && InRange(s[half..], |cov|)
    ensures var alpha := Alpha(VarianceOf(cov, s[..half]), VarianceOf(cov, s[half..]));
            Allocate(cov, s, mass) == Allocate(cov, s[..half], Share(mass, alpha)) +
                                      Allocate(cov, s[half..], Share(mass, 1.0 - alpha))
  {
    hide VarianceOf, Alpha, Share;
    InRangeSlices(s, half, |cov|);
  }

  lemma Slices<T>(s: seq<T>, lo: nat, mid: nat, hi: nat)
    requires lo <= mid <= hi <= |s|
    ensures s[lo..hi][..mid - lo] == s[lo..mid] && s[lo..hi][mid - lo..] == s[mid..hi]
  {
  }

  lemma TargetSplit(cov: Covariance, idx: seq<nat>, target: seq<real>, lo: nat, mid: nat, hi: nat, mass: real)
    requires SquareCov(cov) && InRange(idx, |cov|) && |target| == |idx|
    requires lo < mid < hi <= |idx| && mid - lo == (hi - lo) / 2
    requires InRange(idx[lo..hi], |cov|) && target[lo..hi] == Allocate(cov, idx[lo..hi], mass)
    ensures InRange(idx[lo..mid], |cov|) && InRange(idx[mid..hi], |cov|)
    ensures target[lo..mid] == Allocate(cov, idx[lo..mid], Share(mass, SplitShare(cov, idx, lo, mid, hi)))
    ensures target[mid..hi] == Allocate(cov, idx[mid..hi], Share(mass, 1.0 - SplitShare(cov, idx, lo, mid, hi)))
  {
    hide VarianceOf;
    AllocateUnfold(cov, idx[lo..hi], mass, mid - lo);
    Slices(idx, lo, mid, hi);
    Slices(target, lo, mid, hi);
  }

  // The array after a split: the two halves scaled by their shares.
  function AfterSplit(w: seq<real>, lo: nat, mid: nat, hi: nat, alpha: real): seq<real> {
    Multiplied(Multiplied(w, lo, mid, alpha), mid, hi, 1.0 - alpha)
  }

  // `w'` holds `left` and `right` in the two halves and agrees with `w` elsewhere.
  ghost predicate SplitInto(w: seq<real>, w': seq<real>, lo: nat, mid: nat, hi: nat, left: real, right: real) {
    && |w'| == |w| && lo < mid < hi <= |w|
    && (forall k | lo <= k < mid :: w'[k] == left)
    && (forall k | mid <= k < hi :: w'[k] == right)
    && (forall k | 0 <= k < |w| && !(lo <= k < hi) :: w'[k] == w[k])
  }

  lemma AfterSplitInto(w: seq<real>, lo: nat, mid: nat, hi: nat, alpha: real, mass: real)
    requires lo < mid < hi <= |w| && forall k | lo <= k < hi :: w[k] == mass
    ensures SplitInto(w, AfterSplit(w, lo, mid, hi, alpha), lo, mid, hi, Share(mass, alpha), Share(mass, 1.0 - alpha))
  {
    var once := Multiplied(w, lo, mid, alpha);
    assert forall k | mid <= k < hi :: once[k] == mass;
  }

  lemma HoldsElsewhere(cov: Covariance, idx: seq<nat>, target: seq<real>, w: seq<real>, w': seq<real>, r: Range)
    requires SquareCov(cov) && InRange(idx, |cov|) && |w| == |w'| == |target| == |idx| && r.lo < r.hi <= |idx|
    requires Holds(cov, idx, target, w, r)
    requires forall k | r.lo <= k < r.hi :: w'[k] == w[k]
    ensures Holds(cov, idx, target, w', r)
  {
  }

  lemma RangesSplit(rest: seq<Range>, r: Range, mid: nat, n: nat)
    requires RangesFit(rest + [r], n) && r.lo < mid < r.hi
    ensures RangesFit(rest + [Range(r.lo, mid), Range(mid, r.hi)], n)
  {
    var stack, stack' := rest + [r], rest + [Range(r.lo, mid), Range(mid, r.hi)];
    assert stack[|rest|] == r;
    assert forall a | 0 <= a < |rest| :: stack[a] == rest[a] == stack'[a];
  }

  lemma ProgressSplit(cov: Covariance, idx: seq<nat>, target: seq<real>, w: seq<real>, w': seq<real>,
                      rest: seq<Range>, lo: nat, mid: nat, hi: nat, left: real, right: real)
    requires Progress(cov, idx, target, w, rest + [Range(lo, hi)])
    requires SplitInto(w, w', lo, mid, hi, left, right)
    requires InRange(idx[lo..mid], |cov|) && InRange(idx[mid..hi], |cov|)
    requires target[lo..mid] == Allocate(cov, idx[lo..mid], left)
    requires target[mid..hi] == Allocate(cov, idx[mid..hi], right)
    ensures Progress(cov, idx, target, w', rest + [Range(lo, mid), Range(mid, hi)])
  {
    var r := Range(lo, hi);
    var stack, stack' := rest + [r], rest + [Range(lo, mid), Range(mid, hi)];
    assert stack[|rest|] == r;
    RangesSplit(rest, r, mid, |idx|);
    forall a | 0 <= a < |stack'| ensures Holds(cov, idx, target, w', stack'[a]) {
      if a < |rest| {
        assert stack[a] == rest[a] == stack'[a];
        HoldsElsewhere(cov, idx, target, w, w', rest[a]);
      }
    }
    forall p | 0 <= p < |idx| && !Covers(stack', p) ensures w'[p] == target[p] {
      NotCovered(rest, r, mid, p);
    }
  }

  lemma NotCovered(rest: seq<Range>, r: Range, mid: nat, p: nat)
    requires r.lo <= mid <= r.hi && !Covers(rest + [Range(r.lo, mid), Range(mid, r.hi)], p)
    ensures !Covers(rest + [r], p) && !(r.lo <= p < r.hi)
  {
    var stack, stack' := rest + [r], rest + [Range(r.lo, mid), Range(mid, r.hi)];
    assert stack'[|rest|] == Range(r.lo, mid) && stack'[|rest| + 1] == Range(mid, r.hi);
    forall a | 0 <= a < |stack| ensures !(stack[a].lo <= p < stack[a].hi) {
      if a < |rest| {
        assert stack'[a] == stack[a];
      }
    }
  }

  lemma ProgressDrop(cov: Covariance, idx: seq<nat>, target: seq<real>, w: seq<real>, rest: seq<Range>, r: Range)
    requires Progress(cov, idx, target, w, rest + [r]) && r.hi == r.lo + 1
    ensures Progress(cov, idx, target, w, rest)
  {
    var stack := rest + [r];
    assert stack[|rest|] == r;
    assert forall a | 0 <= a < |rest| :: rest[a] == stack[a];
    forall p | 0 <= p < |idx| && !Covers(rest, p) ensures w[p] == target[p] {
      if p == r.lo {
        assert Holds(cov, idx, target, w, r);
        assert target[r.lo..r.hi][0] == target[p];
      } else {
        assert !Covers(stack, p) by {
          assert forall a | 0 <= a < |rest| :: rest[a] == stack[a];
        }
      }
    }
  }

  lemma ProgressDone(cov: Covariance, idx: seq<nat>, target: seq<real>, w: seq<real>)
    requires Progress(cov, idx, target, w, [])
    ensures w == target
  {
    forall p | 0 <= p < |idx| ensures w[p] == target[p] {
      assert !Covers([], p);
    }
  }

  // Steps the stack can still cause.
  function Work(stack: seq<Range>): nat {
    if stack == [] then 0
    else
      var r := stack[|stack| - 1];
      Work(stack[..|stack| - 1]) + (if r.lo < r.hi then 2 * (r.hi - r.lo) - 1 else 0)
  }

  lemma WorkPush(rest: seq<Range>, r: Range)
    ensures Work(rest + [r]) == Work(rest) + (if r.lo < r.hi then 2 * (r.hi - r.lo) - 1 else 0)
  {
    assert (rest + [r])[..|rest|] == rest;
  }

  lemma WorkSplit(rest: seq<Range>, r: Range, mid: nat)
    requires r.lo < mid < r.hi
    ensures Work(rest + [Range(r.lo, mid), Range(mid, r.hi)]) < Work(rest + [r])
  {
    WorkPush(rest, r);
    WorkPush(rest, Range(r.lo, mid));
    WorkPush(rest + [Range(r.lo, mid)], Range(mid, r.hi));
    assert rest + [Range(r.lo, mid)] + [Range(mid, r.hi)] == rest + [Range(r.lo, mid), Range(mid, r.hi)];
  }

  method MultiplyRange(a: array<real>, lo: nat, hi: nat, factor: real)
    requires lo <= hi <= a.Length
    modifies a
    ensures a[..] == Multiplied(old(a[..]), lo, hi, factor)
  {
    for k := lo to hi
      invariant forall p | 0 <= p < a.Length :: a[p] == if lo <= p < k then Share(old(a[p]), factor) else old(a[p])
    {
      a[k] := a[k] * factor;
    }
  }

  method SplitRange(cov: Covariance, idx: seq<nat>, w: array<real>, lo: nat, hi: nat) returns (mid: nat)
    requires SquareCov(cov) && InRange(idx, |cov|) && w.Length == |idx| && lo + 2 <= hi <= |idx|
    modifies w
    ensures lo < mid < hi && mid - lo == (hi - lo) / 2
    ensures w[..] == AfterSplit(old(w[..]), lo, mid, hi, SplitShare(cov, idx, lo, mid, hi))
  {
    mid := lo + (hi - lo) / 2;
    SliceInRange(idx, Range(lo, mid), |cov|);
    SliceInRange(idx, Range(mid, hi), |cov|);
    var left := ClusterVariance(cov, idx[lo..mid]);
    var right := ClusterVariance(cov, idx[mid..hi]);
    var alpha := Alpha(left, right);
    MultiplyRange(w, lo, mid, alpha);
    MultiplyRange(w, mid, hi, 1.0 - alpha);
  }

  lemma SplitProgresses(cov: Covariance, idx: seq<nat>, target: seq<real>, w: seq<real>, rest: seq<Range>,
                        lo: nat, mid: nat, hi: nat, w': seq<real>)
    requires Progress(cov, idx, target, w, rest + [Range(lo, hi)])
    requires lo < mid < hi <= |idx| && mid - lo == (hi - lo) / 2
    requires w' == AfterSplit(w, lo, mid, hi, SplitShare(cov, idx, lo, mid, hi))
    ensures Progress(cov, idx, target, w', rest + [Range(lo, mid), Range(mid, hi)])
  {
    TopHolds(cov, idx, target, w, rest, Range(lo, hi));
    var left, right := HalvesHold(cov, idx, target, w, lo, mid, hi, w');
    ProgressSplit(cov, idx, target, w, w', rest, lo, mid, hi, left, right);
  }

  lemma HalvesHold(cov: Covariance, idx: seq<nat>, target: seq<real>, w: seq<real>,
                   lo: nat, mid: nat, hi: nat, w': seq<real>) returns (left: real, right: real)
    requires SquareCov(cov) && InRange(idx, |cov|) && |w| == |target| == |idx|
    requires lo < mid < hi <= |idx| && mid - lo == (hi - lo) / 2 && Holds(cov, idx, target, w, Range(lo, hi))
    requires w' == AfterSplit(w, lo, mid, hi, SplitShare(cov, idx, lo, mid, hi))
    ensures SplitInto(w, w', lo, mid, hi, left, right)
    ensures InRange(idx[lo..mid], |cov|) && InRange(idx[mid..hi], |cov|)
    ensures target[lo..mid] == Allocate(cov, idx[lo..mid], left)
    ensures target[mid..hi] == Allocate(cov, idx[mid..hi], right)
  {
    hide Allocate, VarianceOf, Alpha, Share, SplitShare, AfterSplit;
    var alpha, mass := SplitShare(cov, idx, lo, mid, hi), w[lo];
    left, right := Share(mass, alpha), Share(mass, 1.0 - alpha);
    SliceInRange(idx, Range(lo, hi), |cov|);
    TargetSplit(cov, idx, target, lo, mid, hi, mass);
    AfterSplitInto(w, lo, mid, hi, alpha, mass);
  }

  lemma TopHolds(cov: Covariance, idx: seq<nat>, target: seq<real>, w: seq<real>, rest: seq<Range>, r: Range)
    requires Progress(cov, idx, target, w, rest + [r])
    ensures r.lo < r.hi <= |idx| && Holds(cov, idx, target, w, r)
  {
    assert (rest + [r])[|rest|] == r;
  }

  /** The stack of ranges computes the recursive allocation of unit mass. */
  method AllocateByStack(cov: Covariance, idx: seq<nat>) returns (w: array<real>)
    requires SquareCov(cov) && InRange(idx, |cov|) && idx != []
    ensures fresh(w) && w[..] == Allocate(cov, idx, 1.0)
  {
    var n := |idx|;
    w := new real[n](_ => 1.0);
    var ranges := [Range(0, n)];
    ghost var target := Allocate(cov, idx, 1.0);
    StartHolds(cov, idx, w[..]);
    while ranges != []
      invariant Progress(cov, idx, target, w[..], ranges)
      decreases Work(ranges)
    {
      var Range(lo, hi) := ranges[|ranges| - 1];
      var rest := ranges[..|ranges| - 1];
      assert ranges == rest + [Range(lo, hi)];
      WorkPush(rest, Range(lo, hi));
      TopHolds(cov, idx, target, w[..], rest, Range(lo, hi));
      if hi - lo <= 1 {
        ProgressDrop(cov, idx, target, w[..], rest, Range(lo, hi));
        ranges := rest;
      } else {
        ghost var before := w[..];
        var mid := SplitRange(cov, idx, w, lo, hi);
        SplitProgresses(cov, idx, target, before, rest, lo, mid, hi, w[..]);
        WorkSplit(rest, Range(lo, hi), mid);
        ranges := rest + [Range(lo, mid), Range(mid, hi)];
      }
    }
    ProgressDone(cov, idx, target, w[..]);
  }

  lemma StartHolds(cov: Covariance, idx: seq<nat>, w: seq<real>)
    requires SquareCov(cov) && InRange(idx, |cov|) && idx != []
    requires |w| == |idx| && forall k | 0 <= k < |w| :: w[k] == 1.0
    ensures Progress(cov, idx, Allocate(cov, idx, 1.0), w, [Range(0, |idx|)])
  {
    var target := Allocate(cov, idx, 1.0);
    assert idx[0..|idx|] == idx && target[0..|idx|] == target;
    forall p | 0 <= p < |idx| ensures Covers([Range(0, |idx|)], p) {
      assert [Range(0, |idx|)][0] == Range(0, |idx|);
    }
  }

  // ---- back to asset order ------------------------------------------------------------

  lemma {:induction false} SumUpdate(v: seq<real>, k: nat, x: real)
    requires k < |v|
    ensures Sum(v[k := x]) == Sum(v) - v[k] + x
  {
    if k > 0 {
      SumUpdate(v[1..], k - 1, x);
      assert v[k := x][1..] == v[1..][k - 1 := x];
    } else {
      assert v[0 := x][1..] == v[1..];
    }
  }

  lemma {:induction false} ZeroSum(v: seq<real>)
    requires forall k | 0 <= k < |v| :: v[k] == 0.0
    ensures Sum(v) == 0.0
  {
    if v != [] {
      ZeroSum(v[1..]);
    }
  }

  // Every weight in its asset's slot; the total is unchanged.
  method Scatter(order: seq<nat>, ordered: seq<real>) returns (w: array<real>)
    requires |order| == |ordered| && InRange(order, |order|) && Distinct(order)
    requires forall k | 0 <= k < |ordered| :: ordered[k] >= 0.0
    ensures fresh(w) && w.Length == |order|
    ensures forall k | 0 <= k < |order| :: order[k] < w.Length && w[order[k]] == ordered[k]
    ensures Sum(w[..]) == Sum(ordered)
    ensures forall p | 0 <= p < w.Length :: w[p] >= 0.0
  {
    var n := |order|;
    w := new real[n](_ => 0.0);
    ZeroSum(w[..]);
    for k := 0 to n
      invariant Sum(w[..]) == Sum(ordered[..k])
      invariant forall e | 0 <= e < k :: order[e] < n && w[order[e]] == ordered[e]
      invariant forall p | 0 <= p < n && p !in order[..k] :: w[p] == 0.0
      invariant forall p | 0 <= p < n :: w[p] >= 0.0
    {
      assert order[k] in order;
      assert order[k] !in order[..k];
      assert order[..k + 1] == order[..k] + [order[k]];
      SumTake(ordered, k);
      SumUpdate(w[..], order[k], ordered[k]);
      ghost var before := w[..];
      w[order[k]] := ordered[k];
      assert w[..] == before[order[k] := ordered[k]];
    }
    assert ordered[..n] == ordered;
  }

  /** Weights in asset order; empty for a bad shape or order. */
  method RecursiveBisection(cov: Covariance, order: seq<nat>) returns (w: seq<real>)
    ensures cov == [] || !SquareCov(cov) || !IsOrdering(order, |cov|) ==> w == []
    ensures cov != [] && SquareCov(cov) && IsOrdering(order, |cov|) ==>
              && |w| == |cov| && OnSimplex(w) && InRange(order, |cov|)
              && |order| == |cov|
              && forall k | 0 <= k < |order| :: order[k] < |w| && w[order[k]] == Allocate(cov, order, 1.0)[k]
  {
    var n := |cov|;
    OrderingIffUnique(order, n);
    if n == 0 || (exists i | 0 <= i < n :: |cov[i]| != n) || |order| != n {
      return [];
    }
    var unique := AllUniqueIndices(order, n);
    if !unique {
      return [];
    }
    AllocateConserves(cov, order, 1.0);
    if n == 1 {
      assert order[0] in order;
      return [1.0];
    }
    var ordered := AllocateByStack(cov, order);
    var weights := Scatter(order, ordered[..]);
    NormalizedProjects(weights[..]);
    w := NormalizeLongOnly(weights[..]);
  }

  // The weight of every asset is its share of the recursive split along `order`.
  ghost predicate IsAllocation(w: seq<real>, cov: Covariance, order: seq<nat>) {
    && SquareCov(cov) && InRange(order, |cov|) && order != [] && |w| == |cov|
    && forall k | 0 <= k < |order| :: order[k] < |w| && w[order[k]] == Allocate(cov, order, 1.0)[k]
  }

  /** The whole pipeline after the statistics: clustering, leaf order, bisection, normalisation. The
      weights are the recursive split along the leaves of the dendrogram. */
  method HierarchicalRiskParity(distance: Dendrogram.Matrix, cov: Covariance)
    returns (w: seq<real>, ghost run: seq<Stage>, ghost order: seq<nat>)
    requires Symmetric(distance) && |distance| >= 1 && |cov| == |distance| && SquareCov(cov)
    ensures IsRun(distance, run)
    ensures var n := |distance|;
            if forall x, y | 0 <= x < n && 0 <= y < n :: Connected(distance, None, x, y)
            then OrdersRun(distance, run, order) && IsOrdering(order, n) && OnSimplex(w) && IsAllocation(w, cov, order)
            else w == []
  {
    if |cov| == 1 {
      run, order := [Stage(Singletons(1), [])], [0];
      Reflexive(distance, None, 0);
      OrderingIffUnique([0], 1);
      return [1.0], run, order;
    }
    var leaves: seq<nat>;
    leaves, run := ClusterOrder(distance);
    order := leaves;
    if leaves == [] {
      assert multiset(order)[0] == 0;
      return [], run, order;
    }
    w := RecursiveBisection(cov, leaves);
    if |w| == |cov| && forall k | 0 <= k < |w| :: w[k] >= -TINY {
      NormalizedProjects(w);
      w := NormalizeLongOnly(w);
    } else {
      w := [];
    }
  }
}
