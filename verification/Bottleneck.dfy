/** What a single-linkage distance means: the smallest threshold at which two assets are connected. */
module Bottleneck {
  import opened Types
  import opened Dendrogram

  // ---- connection at a threshold; `None` admits every finite distance ---------------

  predicate Within(e: Option<real>, t: Option<real>) {
    e.Some? && (t.None? || e.value <= t.value)
  }

  ghost predicate IsPath(m: Matrix, t: Option<real>, p: seq<nat>) {
    p != [] && forall k | 0 <= k < |p| - 1 :: Within(Entry(m, p[k], p[k + 1]), t)
  }

  ghost predicate Links(m: Matrix, t: Option<real>, p: seq<nat>, x: nat, y: nat) {
    IsPath(m, t, p) && p[0] == x && p[|p| - 1] == y
  }

  ghost predicate Connected(m: Matrix, t: Option<real>, x: nat, y: nat) {
    exists p :: Links(m, t, p, x, y)
  }

  lemma Reflexive(m: Matrix, t: Option<real>, x: nat)
    ensures Connected(m, t, x, x)
  {
    assert Links(m, t, [x], x, x);
  }

  lemma EdgeConnects(m: Matrix, t: Option<real>, x: nat, y: nat)
    requires Within(Entry(m, x, y), t)
    ensures Connected(m, t, x, y)
  {
    assert Links(m, t, [x, y], x, y);
  }

  lemma Transitive(m: Matrix, t: Option<real>, x: nat, y: nat, z: nat)
    requires Connected(m, t, x, y) && Connected(m, t, y, z)
    ensures Connected(m, t, x, z)
  {
    var p :| Links(m, t, p, x, y);
    var q :| Links(m, t, q, y, z);
    var r := p + q[1..];
    forall k | 0 <= k < |r| - 1 ensures Within(Entry(m, r[k], r[k + 1]), t) {
      if k < |p| - 1 {
        assert r[k] == p[k] && r[k + 1] == p[k + 1];
      } else {
        assert r[k] == q[k - |p| + 1] && r[k + 1] == q[k - |p| + 2];
      }
    }
    assert Links(m, t, r, x, z);
  }

  lemma EntrySymmetric(m: Matrix, x: nat, y: nat)
    requires Symmetric(m)
    ensures Entry(m, x, y) == Entry(m, y, x)
  {
  }

  lemma ConnectedSymmetric(m: Matrix, t: Option<real>, x: nat, y: nat)
    requires Symmetric(m) && Connected(m, t, x, y)
    ensures Connected(m, t, y, x)
  {
    var p :| Links(m, t, p, x, y);
    var q: seq<nat> := seq(|p|, k requires 0 <= k < |p| => p[|p| - 1 - k]);
    forall k | 0 <= k < |q| - 1 ensures Within(Entry(m, q[k], q[k + 1]), t) {
      var e := |p| - 2 - k;
      assert Within(Entry(m, p[e], p[e + 1]), t);
      EntrySymmetric(m, p[e], p[e + 1]);
    }
    assert Links(m, t, q, y, x);
  }

  ghost predicate Closed(m: Matrix, t: Option<real>, s: seq<nat>) {
    forall x, y | x in s && Within(Entry(m, x, y), t) :: y in s
  }

  lemma {:induction false} PathStays(m: Matrix, t: Option<real>, s: seq<nat>, p: seq<nat>, k: nat)
    requires Closed(m, t, s) && IsPath(m, t, p) && p[0] in s && k < |p|
    ensures p[k] in s
  {
    if k > 0 {
      PathStays(m, t, s, p, k - 1);
      assert Within(Entry(m, p[k - 1], p[k - 1 + 1]), t);
    }
  }

  lemma ConnectedStays(m: Matrix, t: Option<real>, s: seq<nat>, x: nat, y: nat)
    requires Closed(m, t, s) && x in s && y !in s
    ensures !Connected(m, t, x, y)
  {
    forall p ensures !Links(m, t, p, x, y) {
      if IsPath(m, t, p) && p[0] == x {
        PathStays(m, t, s, p, |p| - 1);
      }
    }
  }

  // ---- partitions ---------------------------------------------------------------------

  lemma {:induction false} ClusterOf(cs: seq<Cluster>, x: nat) returns (k: nat)
    requires MemberCount(cs, x) > 0
    ensures k < |cs| && x in cs[k].members
  {
    if x in cs[0].members {
      k := 0;
    } else {
      k := ClusterOf(cs[1..], x);
      k := k + 1;
    }
  }

  lemma {:induction false} CountAtLeast(cs: seq<Cluster>, a: nat, x: nat)
    requires a < |cs|
    ensures MemberCount(cs, x) >= multiset(cs[a].members)[x]
  {
    CountsDrop(cs, a, x);
  }

  lemma Disjoint(cs: seq<Cluster>, a: nat, b: nat, x: nat)
    requires a < b < |cs| && MemberCount(cs, x) <= 1
    ensures !(x in cs[a].members && x in cs[b].members)
  {
    CountsDrop(cs, b, x);
    assert Without(cs, b)[a] == cs[a];
    CountAtLeast(Without(cs, b), a, x);
  }

  // No admissible distance leads from one cluster to another.
  ghost predicate Separated(m: Matrix, cs: seq<Cluster>, t: Option<real>) {
    forall a, b, x, y | 0 <= a < |cs| && 0 <= b < |cs| && a != b && x in cs[a].members && y in cs[b].members ::
      !Within(Entry(m, x, y), t)
  }

  lemma SeparatedIsClosed(m: Matrix, cs: seq<Cluster>, t: Option<real>, a: nat)
    requires Square(m) && Partition(|m|, cs) && Separated(m, cs, t) && a < |cs|
    ensures Closed(m, t, cs[a].members)
  {
    forall x, y | x in cs[a].members && Within(Entry(m, x, y), t) ensures y in cs[a].members {
      var b := ClusterOf(cs, y);
    }
  }

  lemma SeparatedDisconnects(m: Matrix, cs: seq<Cluster>, t: Option<real>, a: nat, b: nat, x: nat, y: nat)
    requires Square(m) && Partition(|m|, cs) && Separated(m, cs, t)
    requires a < b < |cs| && x in cs[a].members && y in cs[b].members
    ensures !Connected(m, t, x, y)
  {
    SeparatedIsClosed(m, cs, t, a);
    Disjoint(cs, a, b, y);
    ConnectedStays(m, t, cs[a].members, x, y);
  }

  lemma NearestSeparates(m: Matrix, cs: seq<Cluster>, i: nat, j: nat, d: real, t: real)
    requires Symmetric(m) && FirstNearest(m, cs, i, j, d) && t < d
    ensures Separated(m, cs, Some(t))
  {
    forall a, b, x, y | 0 <= a < |cs| && 0 <= b < |cs| && a != b && x in cs[a].members && y in cs[b].members
      ensures !Within(Entry(m, x, y), Some(t))
    {
      EntrySymmetric(m, x, y);
      if a < b {
        assert Apart(m, cs[a].members, cs[b].members, d);
      } else {
        assert Apart(m, cs[b].members, cs[a].members, d);
      }
    }
  }

  lemma StuckSeparates(m: Matrix, cs: seq<Cluster>)
    requires Symmetric(m) && Stuck(m, cs)
    ensures Separated(m, cs, None)
  {
    forall a, b, x, y | 0 <= a < |cs| && 0 <= b < |cs| && a != b && x in cs[a].members && y in cs[b].members
      ensures !Within(Entry(m, x, y), None)
    {
      EntrySymmetric(m, x, y);
      if a < b {
        assert Unlinked(m, cs[a].members, cs[b].members);
      } else {
        assert Unlinked(m, cs[b].members, cs[a].members);
      }
    }
  }

  // ---- clusters are connected at the distances merged so far --------------------------

  // Where a cluster that survives the merge of `i` and `j` came from.
  function Origin(i: nat, j: nat, a: nat): nat
    requires i < j
  {
    if a < i then a else if a < j - 1 then a + 1 else a + 2
  }

  lemma Survives(s: Stage, i: nat, j: nat, d: real, id: nat, a: nat)
    requires i < j < |s.clusters| && a < |s.clusters| - 2
    ensures Joined(s, i, j, d, id).clusters[a] == s.clusters[Origin(i, j, a)]
  {
  }

  ghost predicate AllConnected(m: Matrix, t: Option<real>, c: seq<nat>) {
    forall x, y | x in c && y in c :: Connected(m, t, x, y)
  }

  ghost predicate Tight(m: Matrix, cs: seq<Cluster>, t: Option<real>) {
    forall a | 0 <= a < |cs| :: AllConnected(m, t, cs[a].members)
  }

  lemma UnionConnected(m: Matrix, t: Option<real>, left: seq<nat>, right: seq<nat>, d: real)
    requires Symmetric(m) && AllConnected(m, t, left) && AllConnected(m, t, right)
    requires Touch(m, left, right, d) && Within(Some(d), t)
    ensures AllConnected(m, t, left + right)
  {
    var u, v :| u in left && v in right && Entry(m, u, v) == Some(d);
    EdgeConnects(m, t, u, v);
    EntrySymmetric(m, u, v);
    EdgeConnects(m, t, v, u);
    forall x, y | x in left && y in right ensures Connected(m, t, x, y) && Connected(m, t, y, x) {
      Transitive(m, t, x, u, v);
      Transitive(m, t, x, v, y);
      Transitive(m, t, y, v, u);
      Transitive(m, t, y, u, x);
    }
  }

  lemma JoinTight(m: Matrix, s: Stage, i: nat, j: nat, d: real, id: nat, t: Option<real>)
    requires Symmetric(m) && Tight(m, s.clusters, t)
    requires FirstNearest(m, s.clusters, i, j, d) && Within(Some(d), t)
    ensures Tight(m, Joined(s, i, j, d, id).clusters, t)
  {
    var cs := Joined(s, i, j, d, id).clusters;
    UnionConnected(m, t, s.clusters[i].members, s.clusters[j].members, d);
    forall a | 0 <= a < |cs| ensures AllConnected(m, t, cs[a].members) {
      if a < |cs| - 1 {
        Survives(s, i, j, d, id, a);
      }
    }
  }

  ghost predicate AllWithin(merges: seq<Merge>, t: Option<real>) {
    forall k | 0 <= k < |merges| :: Within(Some(merges[k].distance), t)
  }

  lemma {:induction false} RunTight(m: Matrix, run: seq<Stage>, k: nat, t: Option<real>)
    requires Symmetric(m) && IsRun(m, run) && k < |run| && AllWithin(run[k].merges, t)
    ensures Tight(m, run[k].clusters, t)
  {
    if k == 0 {
      forall a | 0 <= a < |m| ensures AllConnected(m, t, Singletons(|m|)[a].members) {
        Reflexive(m, t, a);
      }
    } else {
      StepWithin(m, run[k - 1], run[k], t);
      RunTight(m, run, k - 1, t);
      StepTight(m, run[k - 1], run[k], t);
    }
  }

  lemma StepWithin(m: Matrix, s: Stage, s': Stage, t: Option<real>)
    requires Step(m, s, s') && AllWithin(s'.merges, t)
    ensures AllWithin(s.merges, t)
  {
    var i, j, d := StepPair(m, s, s');
    assert forall e | 0 <= e < |s.merges| :: s.merges[e] == s'.merges[e];
  }

  lemma StepTight(m: Matrix, s: Stage, s': Stage, t: Option<real>)
    requires Symmetric(m) && Tight(m, s.clusters, t) && Step(m, s, s') && AllWithin(s'.merges, t)
    ensures Tight(m, s'.clusters, t)
  {
    var i, j, d := StepPair(m, s, s');
    assert s'.merges[|s.merges|].distance == d;
    JoinTight(m, s, i, j, d, |m| + |s.merges|, t);
  }

  // ---- merge distances never decrease ------------------------------------------------

  ghost predicate AllApart(m: Matrix, cs: seq<Cluster>, d: real) {
    forall a, b | 0 <= a < |cs| && 0 <= b < |cs| && a != b :: Apart(m, cs[a].members, cs[b].members, d)
  }

  lemma NearestIsApart(m: Matrix, cs: seq<Cluster>, i: nat, j: nat, d: real)
    requires Symmetric(m) && FirstNearest(m, cs, i, j, d)
    ensures AllApart(m, cs, d)
  {
    forall a, b | 0 <= a < |cs| && 0 <= b < |cs| && a != b ensures Apart(m, cs[a].members, cs[b].members, d) {
      if b < a {
        assert Apart(m, cs[b].members, cs[a].members, d);
        forall x, y | x in cs[a].members && y in cs[b].members && Entry(m, x, y).Some?
          ensures d <= Entry(m, x, y).value
        {
          EntrySymmetric(m, x, y);
        }
      }
    }
  }

  lemma JoinKeepsApart(m: Matrix, s: Stage, i: nat, j: nat, d: real, id: nat, s': Stage)
    requires i < j < |s.clusters| && AllApart(m, s.clusters, d) && s' == Joined(s, i, j, d, id)
    ensures s'.merges != [] && LastDistance(s'.merges) == d && AllApart(m, s'.clusters, d)
  {
    var cs := s'.clusters;
    forall a, b | 0 <= a < |cs| && 0 <= b < |cs| && a != b ensures Apart(m, cs[a].members, cs[b].members, d) {
      if a < |cs| - 1 {
        Survives(s, i, j, d, id, a);
      }
      if b < |cs| - 1 {
        Survives(s, i, j, d, id, b);
      }
    }
  }

  lemma NextIsApart(m: Matrix, s: Stage, s': Stage)
    requires Symmetric(m) && Step(m, s, s')
    ensures s'.merges != [] && AllApart(m, s'.clusters, LastDistance(s'.merges))
  {
    var i, j, d := StepPair(m, s, s');
    NearestIsApart(m, s.clusters, i, j, d);
    JoinKeepsApart(m, s, i, j, d, |m| + |s.merges|, s');
  }

  lemma ApartBounds(m: Matrix, s: Stage, s': Stage, d: real)
    requires AllApart(m, s.clusters, d) && Step(m, s, s')
    ensures s'.merges != [] && d <= LastDistance(s'.merges)
  {
    var i, j, d' := StepPair(m, s, s');
    assert Apart(m, s.clusters[i].members, s.clusters[j].members, d);
  }

  function LastDistance(merges: seq<Merge>): real
    requires merges != []
  {
    merges[|merges| - 1].distance
  }

  lemma StepsAscend(m: Matrix, s: Stage, s': Stage, s'': Stage)
    requires Symmetric(m) && Step(m, s, s') && Step(m, s', s'')
    ensures s'.merges != [] && s''.merges != [] && LastDistance(s'.merges) <= LastDistance(s''.merges)
  {
    NextIsApart(m, s, s');
    ApartBounds(m, s', s'', LastDistance(s'.merges));
  }

  ghost predicate Ascending(merges: seq<Merge>) {
    forall a, b | 0 <= a <= b < |merges| :: merges[a].distance <= merges[b].distance
  }

  lemma AscendPush(merges: seq<Merge>, x: Merge)
    requires Ascending(merges) && (merges != [] ==> LastDistance(merges) <= x.distance)
    ensures Ascending(merges + [x])
  {
  }

  /** Merge distances are non-decreasing. */
  lemma {:induction false} DistancesAscend(m: Matrix, run: seq<Stage>, k: nat)
    requires Symmetric(m) && IsRun(m, run) && k < |run|
    ensures Ascending(run[k].merges)
  {
    if k > 0 {
      DistancesAscend(m, run, k - 1);
      StepExtends(m, run[k - 1], run[k]);
      if k > 1 {
        StepsAscend(m, run[k - 2], run[k - 1], run[k]);
      }
      AscendPush(run[k - 1].merges, run[k].merges[|run[k].merges| - 1]);
    }
  }

  lemma StepExtends(m: Matrix, s: Stage, s': Stage)
    requires Step(m, s, s')
    ensures s'.merges != [] && s'.merges == s.merges + [s'.merges[|s'.merges| - 1]]
  {
    var i, j, d := StepPair(m, s, s');
  }

  // ---- the theorem -------------------------------------------------------------------

  lemma {:induction false} MergesGrow(m: Matrix, run: seq<Stage>, k: nat, e: nat)
    requires IsRun(m, run) && k <= e < |run|
    ensures |run[k].merges| == k && |run[e].merges| == e && run[k].merges == run[e].merges[..k]
  {
    RunIsGood(m, run, k);
    RunIsGood(m, run, e);
    if k < e {
      MergesGrow(m, run, k, e - 1);
      var i, j, d := StepPair(m, run[e - 1], run[e]);
    }
  }

  lemma {:induction false} LeavesOfPrefix(merges: seq<Merge>, n: nat, k: nat, id: nat)
    requires ChildrenBelow(merges, n) && k <= |merges| && id < n + k
    ensures ChildrenBelow(merges[..k], n)
    ensures Leaves(merges[..k], n, id) == Leaves(merges, n, id)
    decreases id
  {
    if id >= n {
      LeavesOfPrefix(merges, n, k, merges[id - n].left);
      LeavesOfPrefix(merges, n, k, merges[id - n].right);
    }
  }

  // What the k-th merge joined: two clusters of stage k, in left-to-right order.
  lemma MergedPair(m: Matrix, run: seq<Stage>, k: nat) returns (i: nat, j: nat)
    requires IsRun(m, run) && k < |run| - 1
    ensures var s, merges := run[k], run[|run| - 1].merges;
            && |merges| == |run| - 1 && ChildrenBelow(merges, |m|)
            && FirstNearest(m, s.clusters, i, j, merges[k].distance)
            && s.clusters[i].members == Leaves(merges, |m|, merges[k].left)
            && s.clusters[j].members == Leaves(merges, |m|, merges[k].right)
  {
    hide Leaves;
    var d: real;
    i, j, d := StepPair(m, run[k], run[k + 1]);
    var s, merges := run[k], run[|run| - 1].merges;
    RunIsGood(m, run, |run| - 1);
    RunIsGood(m, run, k);
    MergesGrow(m, run, k, |run| - 1);
    MergesGrow(m, run, k + 1, |run| - 1);
    assert merges[k] == run[k + 1].merges[k];
    LeavesOfPrefix(merges, |m|, k, s.clusters[i].id);
    LeavesOfPrefix(merges, |m|, k, s.clusters[j].id);
  }

  // `x` and `y` are on different sides of merge `k`.
  ghost predicate SplitBy(merges: seq<Merge>, n: nat, k: nat, x: nat, y: nat)
    requires ChildrenBelow(merges, n)
  {
    && k < |merges|
    && x in Leaves(merges, n, merges[k].left)
    && y in Leaves(merges, n, merges[k].right)
  }

  ghost predicate IsBottleneck(m: Matrix, d: real, x: nat, y: nat) {
    forall t: real :: Connected(m, Some(t), x, y) <==> d <= t
  }

  lemma BottleneckSymmetric(m: Matrix, d: real, x: nat, y: nat)
    requires Symmetric(m) && IsBottleneck(m, d, x, y)
    ensures IsBottleneck(m, d, y, x)
  {
    forall t: real ensures Connected(m, Some(t), y, x) <==> d <= t {
      assert Connected(m, Some(t), x, y) <==> d <= t;
      if Connected(m, Some(t), y, x) {
        ConnectedSymmetric(m, Some(t), y, x);
      }
      if Connected(m, Some(t), x, y) {
        ConnectedSymmetric(m, Some(t), x, y);
      }
    }
  }

  lemma ConnectedFromDistance(m: Matrix, run: seq<Stage>, k: nat, i: nat, j: nat, d: real, x: nat, y: nat, t: real)
    requires Symmetric(m) && IsRun(m, run) && k < |run| && AllWithin(run[k].merges, Some(t)) && d <= t
    requires FirstNearest(m, run[k].clusters, i, j, d)
    requires x in run[k].clusters[i].members && y in run[k].clusters[j].members
    ensures Connected(m, Some(t), x, y)
  {
    var left, right := run[k].clusters[i].members, run[k].clusters[j].members;
    RunTight(m, run, k, Some(t));
    UnionConnected(m, Some(t), left, right, d);
    assert x in left + right && y in left + right;
  }

  /** A merge's distance is the bottleneck between its two sides: they are connected at a threshold
      exactly when it reaches that distance. */
  lemma MergeIsBottleneck(m: Matrix, run: seq<Stage>, k: nat, x: nat, y: nat)
    requires Symmetric(m) && IsRun(m, run) && k < |run| - 1
    requires ChildrenBelow(run[|run| - 1].merges, |m|) && SplitBy(run[|run| - 1].merges, |m|, k, x, y)
    ensures IsBottleneck(m, run[|run| - 1].merges[k].distance, x, y)
  {
    var merges := run[|run| - 1].merges;
    var d := merges[k].distance;
    var i, j := MergedPair(m, run, k);
    RunIsGood(m, run, k);
    MergesGrow(m, run, k, |run| - 1);
    DistancesAscend(m, run, |run| - 1);
    forall t: real ensures Connected(m, Some(t), x, y) <==> d <= t {
      if d <= t {
        forall e | 0 <= e < k ensures run[k].merges[e].distance <= t {
          assert merges[e] == run[k].merges[e];
          assert merges[e].distance <= merges[k].distance;
        }
        ConnectedFromDistance(m, run, k, i, j, d, x, y, t);
      } else {
        NearestSeparates(m, run[k].clusters, i, j, d, t);
        SeparatedDisconnects(m, run[k].clusters, Some(t), i, j, x, y);
      }
    }
  }

  lemma {:induction false} SomeMergeSplits(merges: seq<Merge>, n: nat, id: nat, x: nat, y: nat) returns (k: nat)
    requires ChildrenBelow(merges, n) && x != y
    requires x in Leaves(merges, n, id) && y in Leaves(merges, n, id)
    ensures SplitBy(merges, n, k, x, y) || SplitBy(merges, n, k, y, x)
    decreases id
  {
    k := id - n;
    var left, right := Leaves(merges, n, merges[k].left), Leaves(merges, n, merges[k].right);
    if x in left && y in left {
      k := SomeMergeSplits(merges, n, merges[k].left, x, y);
    } else if x in right && y in right {
      k := SomeMergeSplits(merges, n, merges[k].right, x, y);
    }
  }

  lemma InOrdering(order: seq<nat>, n: nat, x: nat)
    requires IsOrdering(order, n) && x < n
    ensures x in order
  {
    assert multiset(order)[x] == 1;
    assert x in multiset(order);
  }

  /** In a finished dendrogram every two assets are split by a merge at their bottleneck distance. */
  lemma DendrogramIsBottleneck(m: Matrix, run: seq<Stage>, x: nat, y: nat) returns (k: nat)
    requires Symmetric(m) && IsRun(m, run) && Complete(run) && x < |m| && y < |m| && x != y
    ensures var merges := run[|run| - 1].merges;
            && k < |merges| && ChildrenBelow(merges, |m|)
            && (SplitBy(merges, |m|, k, x, y) || SplitBy(merges, |m|, k, y, x))
            && IsBottleneck(m, merges[k].distance, x, y)
  {
    DendrogramIsTree(m, run);
    var merges := run[|run| - 1].merges;
    var leaves: seq<nat> := Leaves(merges, |m|, 2 * |m| - 2);
    InOrdering(leaves, |m|, x);
    InOrdering(leaves, |m|, y);
    k := SomeMergeSplits(merges, |m|, 2 * |m| - 2, x, y);
    if SplitBy(merges, |m|, k, x, y) {
      MergeIsBottleneck(m, run, k, x, y);
    } else {
      MergeIsBottleneck(m, run, k, y, x);
      BottleneckSymmetric(m, merges[k].distance, y, x);
    }
  }

  /** Clustering finishes exactly when finite distances connect every two assets. */
  lemma FinishesIffConnected(m: Matrix, run: seq<Stage>)
    requires Symmetric(m) && m != [] && IsRun(m, run)
    requires Complete(run) || Stuck(m, run[|run| - 1].clusters)
    ensures Complete(run) <==> forall x, y | 0 <= x < |m| && 0 <= y < |m| :: Connected(m, None, x, y)
  {
    var s := run[|run| - 1];
    RunIsGood(m, run, |run| - 1);
    if Complete(run) {
      RunTight(m, run, |run| - 1, None);
      forall x, y | 0 <= x < |m| && 0 <= y < |m| ensures Connected(m, None, x, y) {
        var a := ClusterOf(s.clusters, x);
        var b := ClusterOf(s.clusters, y);
      }
    } else {
      StuckSeparates(m, s.clusters);
      var x, y := s.clusters[0].members[0], s.clusters[1].members[0];
      SeparatedDisconnects(m, s.clusters, None, 0, 1, x, y);
      MemberInRange(|m|, s.clusters, 0, x);
      MemberInRange(|m|, s.clusters, 1, y);
    }
  }

  lemma MemberInRange(n: nat, cs: seq<Cluster>, a: nat, x: nat)
    requires Partition(n, cs) && a < |cs| && x in cs[a].members
    ensures x < n
  {
    CountAtLeast(cs, a, x);
  }
}
