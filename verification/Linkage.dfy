/** The clustering loop, the leaf traversal and the order check, proved against the dendrogram model. */
module Linkage {
  import opened Types
  import opened Dendrogram
  import opened Bottleneck

  ghost predicate InRange(members: seq<nat>, n: nat) {
    forall x | x in members :: x < n
  }

  // ---- distance between two clusters -----------------------------------------------

  ghost predicate IsGap(m: Matrix, left: seq<nat>, right: seq<nat>, best: Option<real>) {
    if best.None? then Unlinked(m, left, right)
    else Touch(m, left, right, best.value) && Apart(m, left, right, best.value)
  }

  predicate AtLeast(e: Option<real>, best: Option<real>) {
    e.Some? ==> best.Some? && best.value <= e.value
  }

  // Pairs before `(a, b)` are no nearer than `best`.
  ghost predicate Seen(m: Matrix, left: seq<nat>, right: seq<nat>, a: nat, b: nat, best: Option<real>) {
    forall i: nat, j: nat | i < |left| && j < |right| && Before(i, j, a, b) ::
      AtLeast(Entry(m, left[i], right[j]), best)
  }

  lemma SeenAllIsGap(m: Matrix, left: seq<nat>, right: seq<nat>, best: Option<real>)
    requires Seen(m, left, right, |left|, 0, best)
    requires best.Some? ==> Touch(m, left, right, best.value)
    ensures IsGap(m, left, right, best)
  {
    forall x, y | x in left && y in right ensures AtLeast(Entry(m, x, y), best) {
      var i :| 0 <= i < |left| && left[i] == x;
      var j :| 0 <= j < |right| && right[j] == y;
    }
  }

  method SingleDistance(left: seq<nat>, right: seq<nat>, m: Matrix) returns (best: Option<real>)
    requires Square(m) && InRange(left, |m|) && InRange(right, |m|)
    ensures IsGap(m, left, right, best)
  {
    best := None;
    for a := 0 to |left|
      invariant Seen(m, left, right, a, 0, best)
      invariant best.Some? ==> Touch(m, left, right, best.value)
    {
      for b := 0 to |right|
        invariant Seen(m, left, right, a, b, best)
        invariant best.Some? ==> Touch(m, left, right, best.value)
      {
        assert left[a] in left && right[b] in right;
        var d := m[left[a]][right[b]];
        if d.Some? && (best.None? || d.value < best.value) {
          best := d;
        }
      }
    }
    SeenAllIsGap(m, left, right, best);
  }

  // ---- the nearest pair ---------------------------------------------------------------

  ghost predicate MembersInRange(cs: seq<Cluster>, n: nat) {
    forall k | 0 <= k < |cs| :: InRange(cs[k].members, n)
  }

  datatype Pair = Pair(i: nat, j: nat, d: real)

  // `best` is the first nearest among the pairs before `(a, b)`.
  ghost predicate NearestSoFar(m: Matrix, cs: seq<Cluster>, a: nat, b: nat, best: Option<Pair>) {
    if best.None? then
      forall i: nat, j: nat | i < j < |cs| && Before(i, j, a, b) :: Unlinked(m, cs[i].members, cs[j].members)
    else
      var p := best.value;
      && p.i < p.j < |cs| && Touch(m, cs[p.i].members, cs[p.j].members, p.d)
      && Before(p.i, p.j, a, b)
      && (forall i: nat, j: nat | i < j < |cs| && Before(i, j, a, b) :: Apart(m, cs[i].members, cs[j].members, p.d))
      && (forall i: nat, j: nat | i < j < |cs| && Before(i, j, p.i, p.j) ::
            StrictlyApart(m, cs[i].members, cs[j].members, p.d))
  }

  lemma NearestStep(m: Matrix, cs: seq<Cluster>, a: nat, b: nat, best: Option<Pair>, gap: Option<real>)
    requires a < b < |cs| && NearestSoFar(m, cs, a, b, best)
    requires IsGap(m, cs[a].members, cs[b].members, gap)
    ensures NearestSoFar(m, cs, a, b + 1,
                         if gap.Some? && (best.None? || gap.value < best.value.d)
                         then Some(Pair(a, b, gap.value)) else best)
  {
  }

  lemma NearestRowStart(m: Matrix, cs: seq<Cluster>, a: nat, best: Option<Pair>)
    requires NearestSoFar(m, cs, a, 0, best)
    ensures NearestSoFar(m, cs, a, a + 1, best)
  {
  }

  lemma NearestRowEnd(m: Matrix, cs: seq<Cluster>, a: nat, best: Option<Pair>)
    requires NearestSoFar(m, cs, a, |cs|, best)
    ensures NearestSoFar(m, cs, a + 1, 0, best)
  {
  }

  lemma NearestOfAll(m: Matrix, cs: seq<Cluster>, best: Option<Pair>)
    requires NearestSoFar(m, cs, |cs|, 0, best) && |cs| > 1
    ensures best.Some? ==> FirstNearest(m, cs, best.value.i, best.value.j, best.value.d)
    ensures best.None? ==> Stuck(m, cs)
  {
  }

  method NearestPair(cs: seq<Cluster>, m: Matrix) returns (best: Option<Pair>)
    requires Square(m) && MembersInRange(cs, |m|) && |cs| > 1
    ensures best.Some? ==> FirstNearest(m, cs, best.value.i, best.value.j, best.value.d)
    ensures best.None? ==> Stuck(m, cs)
  {
    best := None;
    for a := 0 to |cs|
      invariant NearestSoFar(m, cs, a, 0, best)
    {
      NearestRowStart(m, cs, a, best);
      for b := a + 1 to |cs|
        invariant NearestSoFar(m, cs, a, b, best)
      {
        var d := SingleDistance(cs[a].members, cs[b].members, m);
        NearestStep(m, cs, a, b, best, d);
        if d.Some? && (best.None? || d.value < best.value.d) {
          best := Some(Pair(a, b, d.value));
        }
      }
      NearestRowEnd(m, cs, a, best);
    }
    NearestOfAll(m, cs, best);
  }

  // ---- the clustering loop ---------------------------------------------------------------

  lemma GoodStageInRange(n: nat, s: Stage)
    requires GoodStage(n, s)
    ensures MembersInRange(s.clusters, n)
  {
    forall k, x | 0 <= k < |s.clusters| && x in s.clusters[k].members ensures x < n {
      MemberInRange(n, s.clusters, k, x);
    }
  }

  lemma RunPush(m: Matrix, run: seq<Stage>, i: nat, j: nat, d: real, next: Stage)
    requires IsRun(m, run) && FirstNearest(m, run[|run| - 1].clusters, i, j, d)
    requires next == Joined(run[|run| - 1], i, j, d, |m| + |run[|run| - 1].merges|)
    ensures IsRun(m, run + [next])
  {
    assert Step(m, run[|run| - 1], next);
    forall k | 0 <= k < |run| ensures Step(m, (run + [next])[k], (run + [next])[k + 1]) {
      if k < |run| - 1 {
        assert Step(m, run[k], run[k + 1]);
      }
    }
  }

  /** Clusters a distance matrix; the answer is empty for bad shapes and when clustering gets stuck. */
  method SingleLinkage(distance: Matrix) returns (merges: seq<Merge>, ghost run: seq<Stage>)
    ensures IsRun(distance, run)
    ensures |distance| < 2 || !Square(distance) ==> merges == []
    ensures |distance| >= 2 && Square(distance) ==>
              || (Complete(run) && merges == run[|run| - 1].merges)
              || (Stuck(distance, run[|run| - 1].clusters) && merges == [])
  {
    var n := |distance|;
    var clusters := Singletons(n);
    merges := [];
    run := [Stage(clusters, merges)];
    if n < 2 || exists i | 0 <= i < n :: |distance[i]| != n {
      return;
    }
    var nextId := n;
    RunIsGood(distance, run, 0);
    while |clusters| > 1
      invariant IsRun(distance, run) && run[|run| - 1] == Stage(clusters, merges)
      invariant GoodStage(n, Stage(clusters, merges))
      invariant nextId == n + |merges| && |clusters| >= 1
      decreases |clusters|
    {
      GoodStageInRange(n, Stage(clusters, merges));
      var best := NearestPair(clusters, distance);
      if best.None? {
        merges := [];
        return;
      }
      var Pair(i, j, d) := best.value;
      ghost var next := Joined(Stage(clusters, merges), i, j, d, nextId);
      RunPush(distance, run, i, j, d, next);
      JoinedIsGood(n, Stage(clusters, merges), i, j, d, next);
      run := run + [next];
      var right := clusters[j];
      clusters := clusters[..j] + clusters[j + 1..];
      var left := clusters[i];
      clusters := clusters[..i] + clusters[i + 1..];
      var members := left.members + right.members;
      merges := merges + [Merge(left.id, right.id, d, |members|)];
      clusters := clusters + [Cluster(nextId, members)];
      nextId := nextId + 1;
    }
  }

  // ---- leaf order ---------------------------------------------------------------------

  method AppendLeaves(id: nat, n: nat, merges: seq<Merge>, order: seq<nat>) returns (r: seq<nat>)
    requires ChildrenBelow(merges, n)
    ensures r == order + Leaves(merges, n, id)
    decreases id
  {
    if id < n {
      return order + [id];
    }
    r := order;
    if id - n < |merges| {
      r := AppendLeaves(merges[id - n].left, n, merges, r);
      r := AppendLeaves(merges[id - n].right, n, merges, r);
    }
  }

  ghost predicate Distinct(s: seq<nat>) {
    forall a, b | 0 <= a < b < |s| :: s[a] != s[b]
  }

  method AllUniqueIndices(indices: seq<nat>, n: nat) returns (ok: bool)
    ensures ok <==> InRange(indices, n) && Distinct(indices)
  {
    var seen := new bool[n](_ => false);
    for k := 0 to |indices|
      invariant InRange(indices[..k], n) && Distinct(indices[..k])
      invariant forall x | 0 <= x < n :: seen[x] <==> x in indices[..k]
    {
      var x := indices[k];
      assert indices[..k + 1] == indices[..k] + [x];
      assert x in indices;
      if x >= n || seen[x] {
        return false;
      }
      seen[x] := true;
    }
    assert indices[..|indices|] == indices;
    return true;
  }

  // ---- orderings: each index once -----------------------------------------------------

  function CountBelow(order: seq<nat>, n: nat): nat {
    if n == 0 then 0 else CountBelow(order, n - 1) + multiset(order)[n - 1]
  }

  lemma {:induction false} CountBelowPush(order: seq<nat>, x: nat, n: nat)
    ensures CountBelow(order + [x], n) == CountBelow(order, n) + if x < n then 1 else 0
  {
    if n > 0 {
      CountBelowPush(order, x, n - 1);
    }
  }

  lemma {:induction false} CountBelowIsLength(order: seq<nat>, n: nat)
    requires InRange(order, n)
    ensures CountBelow(order, n) == |order|
  {
    if order == [] {
      CountNone(n);
    } else {
      var init, x := order[..|order| - 1], order[|order| - 1];
      assert order == init + [x];
      assert x in order;
      forall y | y in init ensures y < n {
        assert y in order;
      }
      CountBelowIsLength(init, n);
      CountBelowPush(init, x, n);
    }
  }

  lemma {:induction false} CountNone(n: nat)
    ensures CountBelow([], n) == 0
  {
    if n > 0 {
      CountNone(n - 1);
    }
  }

  lemma {:induction false} CountBelowAtMost(order: seq<nat>, n: nat)
    requires forall x: nat :: multiset(order)[x] <= 1
    ensures CountBelow(order, n) <= n
    ensures CountBelow(order, n) == n <==> forall x: nat | x < n :: multiset(order)[x] == 1
  {
    if n > 0 {
      CountBelowAtMost(order, n - 1);
    }
  }

  lemma DistinctCounts(s: seq<nat>)
    ensures Distinct(s) <==> forall x: nat :: multiset(s)[x] <= 1
  {
    if Distinct(s) {
      forall x: nat ensures multiset(s)[x] <= 1 {
        DistinctCount(s, x);
      }
    } else {
      var a, b :| 0 <= a < b < |s| && s[a] == s[b];
      assert s == s[..b] + [s[b]] + s[b + 1..];
      assert s[..b][a] == s[b];
      assert multiset(s)[s[b]] == multiset(s[..b])[s[b]] + 1 + multiset(s[b + 1..])[s[b]];
    }
  }

  lemma {:induction false} DistinctCount(s: seq<nat>, x: nat)
    requires Distinct(s)
    ensures multiset(s)[x] <= 1
  {
    if s != [] {
      var init := s[..|s| - 1];
      assert s == init + [s[|s| - 1]];
      DistinctCount(init, x);
    }
  }

  /** `n` distinct indices below `n` are each index once, and conversely. */
  lemma OrderingIffUnique(order: seq<nat>, n: nat)
    ensures IsOrdering(order, n) <==> |order| == n && InRange(order, n) && Distinct(order)
  {
    DistinctCounts(order);
    if IsOrdering(order, n) {
      forall x | x in order ensures x < n {
        assert multiset(order)[x] > 0;
      }
      CountBelowIsLength(order, n);
      CountBelowAtMost(order, n);
    }
    if |order| == n && InRange(order, n) && Distinct(order) {
      CountBelowIsLength(order, n);
      CountBelowAtMost(order, n);
      forall x: nat | x >= n ensures multiset(order)[x] == 0 {
        assert x !in order;
      }
    }
  }

  /** The quasi-diagonal order: the root's leaves, if they are each asset once. */
  method QuasiDiagonal(merges: seq<Merge>, n: nat) returns (order: seq<nat>)
    requires ChildrenBelow(merges, n)
    ensures n == 0 ==> order == []
    ensures n == 1 ==> order == [0]
    ensures n > 1 ==> order == if |merges| == n - 1 && IsOrdering(Leaves(merges, n, 2 * n - 2), n)
                               then Leaves(merges, n, 2 * n - 2) else []
  {
    if n == 0 {
      return [];
    }
    if n == 1 {
      return [0];
    }
    if |merges| != n - 1 {
      return [];
    }
    order := AppendLeaves(n + |merges| - 1, n, merges, []);
    assert order == Leaves(merges, n, 2 * n - 2);
    var unique := AllUniqueIndices(order, n);
    assert (|order| == n && unique) == IsOrdering(order, n) by {
      OrderingIffUnique(order, n);
    }
    if !(|order| == n && unique) {
      order := [];
    }
  }

  /** From a symmetric distance matrix to the order of the assets: the leaves of the finished tree,
      each asset once, when finite distances connect them all, and empty otherwise. */
  method ClusterOrder(distance: Matrix) returns (order: seq<nat>, ghost run: seq<Stage>)
    requires Symmetric(distance) && |distance| >= 2
    ensures IsRun(distance, run)
    ensures var n := |distance|;
            if forall x, y | 0 <= x < n && 0 <= y < n :: Connected(distance, None, x, y)
            then IsOrdering(order, n) && OrdersRun(distance, run, order) else order == []
  {
    var merges: seq<Merge>;
    merges, run := SingleLinkage(distance);
    FinishesIffConnected(distance, run);
    if Complete(run) {
      DendrogramIsTree(distance, run);
    }
    order := QuasiDiagonal(merges, |distance|);
  }

  // `order` lists the leaves of the tree the run finished.
  ghost predicate OrdersRun(distance: Matrix, run: seq<Stage>, order: seq<nat>) {
    && Complete(run) && |distance| >= 1
    && ChildrenBelow(run[|run| - 1].merges, |distance|)
    && order == Leaves(run[|run| - 1].merges, |distance|, 2 * |distance| - 2)
  }
}
