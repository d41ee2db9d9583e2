/** Bisection does not depend on which pending range is taken next. */
module BisectionOrder {
  import opened Types
  import opened Simplex
  import opened Linkage
  import opened Bisection

  // ---- any pending range may be next ---------------------------------------------------

  function Others(stack: seq<Range>, k: nat): seq<Range>
    requires k < |stack|
  {
    stack[..k] + stack[k + 1..]
  }

  // Where the range at position `k` goes when it is moved to the end.
  function MovedFrom(k: nat, n: nat, a: nat): nat
    requires k < n && a < n
  {
    if a < k then a else if a == n - 1 then k else a + 1
  }

  lemma MovedIs(stack: seq<Range>, k: nat, a: nat)
    requires k < |stack| && a < |stack|
    ensures MovedFrom(k, |stack|, a) < |stack|
    ensures (Others(stack, k) + [stack[k]])[a] == stack[MovedFrom(k, |stack|, a)]
  {
  }

  lemma MovedFits(stack: seq<Range>, k: nat, n: nat)
    requires RangesFit(stack, n) && k < |stack|
    ensures RangesFit(Others(stack, k) + [stack[k]], n)
  {
    var moved := Others(stack, k) + [stack[k]];
    forall a | 0 <= a < |moved| ensures moved[a].lo < moved[a].hi <= n {
      MovedIs(stack, k, a);
    }
    forall a, b | 0 <= a < b < |moved| ensures moved[a].hi <= moved[b].lo || moved[b].hi <= moved[a].lo {
      MovedIs(stack, k, a);
      MovedIs(stack, k, b);
    }
  }

  lemma MovedCovers(stack: seq<Range>, k: nat, p: nat)
    requires k < |stack| && Covers(stack, p)
    ensures Covers(Others(stack, k) + [stack[k]], p)
  {
    var moved := Others(stack, k) + [stack[k]];
    var a :| 0 <= a < |stack| && stack[a].lo <= p < stack[a].hi;
    var b := if a < k then a else if a == k then |stack| - 1 else a - 1;
    assert moved[b] == stack[a];
  }

  lemma ProgressMoves(cov: Covariance, idx: seq<nat>, target: seq<real>, w: seq<real>, stack: seq<Range>, k: nat)
    requires Progress(cov, idx, target, w, stack) && k < |stack|
    ensures Progress(cov, idx, target, w, Others(stack, k) + [stack[k]])
  {
    var moved := Others(stack, k) + [stack[k]];
    MovedFits(stack, k, |idx|);
    forall a | 0 <= a < |moved| ensures Holds(cov, idx, target, w, moved[a]) {
      MovedIs(stack, k, a);
    }
    forall p | 0 <= p < |idx| && !Covers(moved, p) ensures w[p] == target[p] {
      if Covers(stack, p) {
        MovedCovers(stack, k, p);
      }
    }
  }

  datatype Work = Work(w: seq<real>, pending: seq<Range>)

  // One turn on the range at position `k`: a single entry is finished, a longer range is halved.
  ghost predicate Turn(cov: Covariance, idx: seq<nat>, s: Work, s': Work, k: nat)
    requires SquareCov(cov) && InRange(idx, |cov|)
  {
    && k < |s.pending|
    && var Range(lo, hi) := s.pending[k];
       var rest := Others(s.pending, k);
       if hi <= lo + 1 then s' == Work(s.w, rest)
       else
         var mid := lo + (hi - lo) / 2;
         && hi <= |idx|
         && s' == Work(AfterSplit(s.w, lo, mid, hi, SplitShare(cov, idx, lo, mid, hi)),
                       rest + [Range(lo, mid), Range(mid, hi)])
  }

  // Turns on pending ranges in any order, from unit mass on everything.
  ghost predicate AnyRun(cov: Covariance, idx: seq<nat>, run: seq<Work>, picks: seq<nat>)
    requires SquareCov(cov) && InRange(idx, |cov|)
  {
    && |run| == |picks| + 1
    && run[0].pending == [Range(0, |idx|)] && |run[0].w| == |idx|
    && (forall p | 0 <= p < |idx| :: run[0].w[p] == 1.0)
    && forall t | 0 <= t < |picks| :: Turn(cov, idx, run[t], run[t + 1], picks[t])
  }

  lemma DropAny(cov: Covariance, idx: seq<nat>, target: seq<real>, w: seq<real>, stack: seq<Range>, k: nat)
    requires Progress(cov, idx, target, w, stack) && k < |stack| && stack[k].hi <= stack[k].lo + 1
    ensures Progress(cov, idx, target, w, Others(stack, k))
  {
    hide Progress, Others;
    ProgressMoves(cov, idx, target, w, stack, k);
    TopHolds(cov, idx, target, w, Others(stack, k), stack[k]);
    ProgressDrop(cov, idx, target, w, Others(stack, k), stack[k]);
  }

  lemma SplitAny(cov: Covariance, idx: seq<nat>, target: seq<real>, w: seq<real>, stack: seq<Range>, k: nat,
                 lo: nat, mid: nat, hi: nat, w': seq<real>)
    requires Progress(cov, idx, target, w, stack) && k < |stack| && stack[k] == Range(lo, hi)
    requires SquareCov(cov) && InRange(idx, |cov|)
    requires lo < mid < hi <= |idx| && mid - lo == (hi - lo) / 2
    requires w' == AfterSplit(w, lo, mid, hi, SplitShare(cov, idx, lo, mid, hi))
    ensures Progress(cov, idx, target, w', Others(stack, k) + [Range(lo, mid), Range(mid, hi)])
  {
    hide Progress, Others, AfterSplit, SplitShare;
    ProgressMoves(cov, idx, target, w, stack, k);
    SplitProgresses(cov, idx, target, w, Others(stack, k), lo, mid, hi, w');
  }

  lemma TurnKeeps(cov: Covariance, idx: seq<nat>, target: seq<real>, s: Work, s': Work, k: nat)
    requires SquareCov(cov) && InRange(idx, |cov|)
    requires Progress(cov, idx, target, s.w, s.pending) && Turn(cov, idx, s, s', k)
    ensures Progress(cov, idx, target, s'.w, s'.pending)
  {
    hide Progress, AfterSplit, SplitShare, Others;
    var Range(lo, hi) := s.pending[k];
    if hi <= lo + 1 {
      DropAny(cov, idx, target, s.w, s.pending, k);
    } else {
      SplitAny(cov, idx, target, s.w, s.pending, k, lo, lo + (hi - lo) / 2, hi, s'.w);
    }
  }

  lemma {:induction false} AnyRunKeeps(cov: Covariance, idx: seq<nat>, run: seq<Work>, picks: seq<nat>, t: nat)
    requires SquareCov(cov) && InRange(idx, |cov|) && idx != [] && AnyRun(cov, idx, run, picks) && t < |run|
    ensures Progress(cov, idx, Allocate(cov, idx, 1.0), run[t].w, run[t].pending)
  {
    hide Progress, Turn;
    if t == 0 {
      StartHolds(cov, idx, run[0].w);
    } else {
      AnyRunKeeps(cov, idx, run, picks, t - 1);
      assert Turn(cov, idx, run[t - 1], run[t - 1 + 1], picks[t - 1]);
      TurnKeeps(cov, idx, Allocate(cov, idx, 1.0), run[t - 1], run[t], picks[t - 1]);
    }
  }

  /** Whatever order pending ranges are taken in, once none is left the entries are the recursive split. */
  lemma AnyOrderAllocates(cov: Covariance, idx: seq<nat>, run: seq<Work>, picks: seq<nat>)
    requires SquareCov(cov) && InRange(idx, |cov|) && idx != [] && AnyRun(cov, idx, run, picks)
    requires run[|picks|].pending == []
    ensures run[|picks|].w == Allocate(cov, idx, 1.0)
  {
    AnyRunKeeps(cov, idx, run, picks, |picks|);
    ProgressDone(cov, idx, Allocate(cov, idx, 1.0), run[|picks|].w);
  }

  // ---- one representative per range ------------------------------------------------------

  // The first entry of a pending range, or a finished entry.
  ghost predicate Represents(stack: seq<Range>, p: nat) {
    !Covers(stack, p) || exists a | 0 <= a < |stack| :: stack[a].lo == p
  }

  ghost function Representatives(w: seq<real>, stack: seq<Range>, q: nat): real
    requires q <= |w|
  {
    if q == 0 then 0.0
    else Representatives(w, stack, q - 1) + (if Represents(stack, q - 1) then w[q - 1] else 0.0)
  }

  lemma {:induction false} AllocateSums(cov: Covariance, idx: seq<nat>, mass: real)
    requires SquareCov(cov) && InRange(idx, |cov|) && idx != []
    ensures Sum(Allocate(cov, idx, mass)) == mass
    decreases |idx|
  {
    hide VarianceOf, Alpha, Share;
    if |idx| > 1 {
      var mid := |idx| / 2;
      InRangeSlices(idx, mid, |cov|);
      var alpha := Alpha(VarianceOf(cov, idx[..mid]), VarianceOf(cov, idx[mid..]));
      var left, right := Share(mass, alpha), Share(mass, 1.0 - alpha);
      SharesAdd(mass, alpha);
      AllocateSums(cov, idx[..mid], left);
      AllocateSums(cov, idx[mid..], right);
      Bisection.SumConcat(Allocate(cov, idx[..mid], left), Allocate(cov, idx[mid..], right));
    }
  }

  lemma SharesAdd(mass: real, alpha: real)
    ensures Share(mass, alpha) + Share(mass, 1.0 - alpha) == mass
  {
  }

  lemma {:induction false} OneInside(w: seq<real>, stack: seq<Range>, a: nat, q: nat)
    requires RangesFit(stack, |w|) && a < |stack| && stack[a].lo < q <= stack[a].hi
    ensures Representatives(w, stack, q) == Representatives(w, stack, stack[a].lo) + w[stack[a].lo]
  {
    var lo := stack[a].lo;
    if q == lo + 1 {
      assert Represents(stack, lo);
    } else {
      OneInside(w, stack, a, q - 1);
      assert Covers(stack, q - 1);
      forall b | 0 <= b < |stack| ensures stack[b].lo != q - 1 {
        if b != a {
          assert stack[b].hi <= stack[a].lo || stack[a].hi <= stack[b].lo;
        }
      }
    }
  }

  // No pending range reaches across `q`.
  ghost predicate Boundary(stack: seq<Range>, q: nat) {
    forall a | 0 <= a < |stack| :: !(stack[a].lo < q < stack[a].hi)
  }

  lemma {:induction false} RepresentativesTo(cov: Covariance, idx: seq<nat>, target: seq<real>, w: seq<real>,
                                             stack: seq<Range>, q: nat)
    requires Progress(cov, idx, target, w, stack) && q <= |w| && Boundary(stack, q)
    ensures Representatives(w, stack, q) == Sum(target[..q])
    decreases q
  {
    hide Holds;
    if q > 0 {
      if Covers(stack, q - 1) {
        var a :| 0 <= a < |stack| && stack[a].lo <= q - 1 < stack[a].hi;
        RangeBelow(cov, idx, target, w, stack, a, q);
        RepresentativesTo(cov, idx, target, w, stack, stack[a].lo);
        RangeSum(cov, idx, target, w, stack[a]);
        OneInside(w, stack, a, q);
      } else {
        forall a | 0 <= a < |stack| ensures !(stack[a].lo < q - 1 < stack[a].hi) {
          assert !(stack[a].lo <= q - 1 < stack[a].hi);
        }
        RepresentativesTo(cov, idx, target, w, stack, q - 1);
        SumTake(target, q - 1);
      }
    }
  }

  lemma RangeBelow(cov: Covariance, idx: seq<nat>, target: seq<real>, w: seq<real>, stack: seq<Range>, a: nat, q: nat)
    requires Progress(cov, idx, target, w, stack) && Boundary(stack, q)
    requires a < |stack| && stack[a].lo <= q - 1 < stack[a].hi
    ensures q == stack[a].hi && Boundary(stack, stack[a].lo) && Holds(cov, idx, target, w, stack[a])
  {
    forall b | 0 <= b < |stack| ensures !(stack[b].lo < stack[a].lo < stack[b].hi) {
      if b != a {
        assert stack[b].hi <= stack[a].lo || stack[a].hi <= stack[b].lo;
      }
    }
  }

  lemma RangeSum(cov: Covariance, idx: seq<nat>, target: seq<real>, w: seq<real>, r: Range)
    requires SquareCov(cov) && InRange(idx, |cov|) && |w| == |target| == |idx| && r.lo < r.hi <= |idx|
    requires Holds(cov, idx, target, w, r)
    ensures Sum(target[..r.hi]) == Sum(target[..r.lo]) + w[r.lo]
  {
    SliceInRange(idx, r, |cov|);
    AllocateSums(cov, idx[r.lo..r.hi], w[r.lo]);
    assert target[..r.hi] == target[..r.lo] + target[r.lo..r.hi];
    Bisection.SumConcat(target[..r.lo], target[r.lo..r.hi]);
  }

  /** At every turn of every order, one entry per pending range and every finished entry sum to one. */
  lemma RepresentativesSumToOne(cov: Covariance, idx: seq<nat>, run: seq<Work>, picks: seq<nat>, t: nat)
    requires SquareCov(cov) && InRange(idx, |cov|) && idx != [] && AnyRun(cov, idx, run, picks) && t < |run|
    ensures |run[t].w| == |idx| && Representatives(run[t].w, run[t].pending, |idx|) == 1.0
    ensures RangesFit(run[t].pending, |idx|)
    ensures forall a | 0 <= a < |run[t].pending| ::
              var r := run[t].pending[a]; forall k | r.lo <= k < r.hi :: run[t].w[k] == run[t].w[r.lo]
  {
    var target, n := Allocate(cov, idx, 1.0), |idx|;
    AnyRunKeeps(cov, idx, run, picks, t);
    RepresentativesTo(cov, idx, target, run[t].w, run[t].pending, n);
    assert target[..n] == target;
    AllocateSums(cov, idx, 1.0);
    forall a | 0 <= a < |run[t].pending|
      ensures var r := run[t].pending[a]; forall k | r.lo <= k < r.hi :: run[t].w[k] == run[t].w[r.lo]
    {
      assert Holds(cov, idx, target, run[t].w, run[t].pending[a]);
    }
  }
}
